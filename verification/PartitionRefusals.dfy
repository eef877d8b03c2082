/** Which replies the decoder refuses: negative counts, and counts and ids over its sanity limits. */
module PartitionRefusals {
  import opened Wire
  import opened Uuid
  import opened Codec
  import opened Affinity
  import opened PartitionReply
  import opened PartitionLayout

  /** More than 4096 nodes, or fewer than none. */
  lemma NodeCountRefused(n: i32, rest: Bytes)
    requires n < 0 || n > 4096
    ensures GetPartitionMap(PutI32(n) + rest) == Bad(BadFormat)
  {
    GetPutI32(n, rest);
  }

  /** A node with more than 65536 partitions, or fewer than none. */
  lemma PartitionCountRefused(most: i64, least: i64, n: i32, rest: Bytes)
    requires n < 0 || n > 65536
    ensures GetNode(PutI64(most) + (PutI64(least) + (PutI32(n) + rest))) == Bad(BadFormat)
  {
    GetPutI64(most, PutI64(least) + (PutI32(n) + rest));
    GetPutI64(least, PutI32(n) + rest);
    GetPutI32(n, rest);
  }

  /** A partition id above 65535, or below zero, however many good ones stand before it. */
  lemma {:induction false} PartitionIdRefused(x: Node, good: seq<i32>, p: i32, n: nat, rest: Bytes)
    requires n > |good| && forall i :: 0 <= i < |good| ==> 0 <= good[i] <= 65535
    requires p < 0 || p > 65535
    ensures GetIds(n, x, PutI32s(good) + (PutI32(p) + rest)) == Bad(BadFormat)
  {
    if good == [] {
      assert [] + (PutI32(p) + rest) == PutI32(p) + rest;
      GetPutI32(p, rest);
    } else {
      GetPutI32Then(good[0], PutI32s(good[1..]), PutI32(p) + rest);
      PartitionIdRefused(x, good[1..], p, n - 1, rest);
    }
  }

  /** A negative number of mapping groups. */
  lemma GroupCountRefused(major: i64, minor: i32, n: i32, dcAware: bool, allMappings: bool, rest: Bytes)
    requires n < 0
    ensures GetReply(dcAware, allMappings, PutI64(major) + (PutI32(minor) + (PutI32(n) + rest))) == Bad(BadFormat)
  {
    GetPutI64(major, PutI32(minor) + (PutI32(n) + rest));
    GetPutI32(minor, PutI32(n) + rest);
    GetPutI32(n, rest);
  }

  /** A group with a negative number of caches. */
  lemma CacheCountRefused(applicable: bool, n: i32, dcAware: bool, allMappings: bool, rest: Bytes)
    requires n < 0
    ensures GetGroup(dcAware, allMappings, PutBool(applicable) + (PutI32(n) + rest)) == Bad(BadFormat)
  {
    GetPutBool(applicable, PutI32(n) + rest);
    GetPutI32(n, rest);
  }

  /** A cache with a negative number of key configurations. */
  lemma KeyConfigCountRefused(id: i32, n: i32, rest: Bytes)
    requires n < 0
    ensures GetCacheEntry(PutI32(id) + (PutI32(n) + rest)) == Bad(BadFormat)
  {
    GetPutI32(id, PutI32(n) + rest);
    GetPutI32(n, rest);
  }

  /** A reply too short for its version and its group count. */
  lemma TooShortRefused(s: Bytes, dcAware: bool, allMappings: bool)
    requires |s| < 16
    ensures GetReply(dcAware, allMappings, s) == Bad(EndOfInput)
  {
  }
}
