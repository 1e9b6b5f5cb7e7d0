/** The ancestor-hash closure of a header: a cache of parent hashes that grows on demand. */
module AncestorHash {
  import opened Common

  datatype Header = Header(parentHash: Hash, number: nat)

  type GetHeader = (Hash, nat) -> Option<Header>

  /** Headers are stored under their own number. */
  ghost predicate HashLinked(get: GetHeader) {
    forall h, k :: get(h, k).Some? ==> get(h, k).value.number == k
  }

  /** The uncached answer: follow parents from the block with hash `h` at height `k` down to `n`. */
  function Walk(get: GetHeader, h: Hash, k: nat, n: nat): Hash
    requires n <= k
    decreases k
  {
    if k == n then h
    else
      var header := get(h, k);
      if header.None? then ZERO_HASH else Walk(get, header.value.parentHash, k - 1, n)
  }

  /** The hash of ancestor `n` of a header, without a cache. */
  function Ancestor(get: GetHeader, number: nat, parent: Hash, n: nat): Hash
    requires n < number
  {
    Walk(get, parent, number - 1, n)
  }

  /** Walking on from hash `h` at height `k` answers like walking from the reference. */
  ghost predicate OnPath(get: GetHeader, number: nat, parent: Hash, h: Hash, k: nat) {
    k < number && forall n: nat :: n <= k ==> Walk(get, h, k, n) == Ancestor(get, number, parent, n)
  }

  /** Entry `i` of the cache is the hash at height number-1-i. */
  ghost predicate CacheOk(get: GetHeader, number: nat, parent: Hash, cache: seq<Hash>) {
    && |cache| <= number
    && forall i :: 0 <= i < |cache| ==> OnPath(get, number, parent, cache[i], number - 1 - i)
  }

  lemma StepOnPath(get: GetHeader, number: nat, parent: Hash, h: Hash, k: nat)
    requires OnPath(get, number, parent, h, k) && 0 < k && get(h, k).Some?
    ensures OnPath(get, number, parent, get(h, k).value.parentHash, k - 1)
  {
    forall n: nat | n <= k - 1
      ensures Walk(get, get(h, k).value.parentHash, k - 1, n) == Ancestor(get, number, parent, n)
    {
      assert Walk(get, h, k, n) == Ancestor(get, number, parent, n);
    }
  }

  /** The closure returned by GetHashFn. */
  class HashFn {
    const number: nat
    const parentHash: Hash
    const getHeader: GetHeader
    var cache: seq<Hash>

    constructor (number: nat, parentHash: Hash, getHeader: GetHeader)
      ensures this.number == number && this.parentHash == parentHash && this.getHeader == getHeader && cache == []
    {
      this.number, this.parentHash, this.getHeader, cache := number, parentHash, getHeader, [];
    }

    ghost predicate Valid()
      reads this
    {
      HashLinked(getHeader) && CacheOk(getHeader, number, parentHash, cache) && (cache != [] ==> cache[0] == parentHash)
    }

    /** One query: the cached answer is the uncached one, and the cache only grows. */
    method GetHash(n: nat) returns (h: Hash)
      requires Valid() && n < number
      modifies this
      ensures Valid()
      ensures h == Ancestor(getHeader, number, parentHash, n)
      ensures old(cache) <= cache
    {
      if |cache| == 0 {
        cache := [parentHash];
      }
      var idx := number - n - 1;
      if idx < |cache| {
        assert OnPath(getHeader, number, parentHash, cache[idx], n);
        assert Walk(getHeader, cache[idx], n, n) == Ancestor(getHeader, number, parentHash, n);
        return cache[idx];
      }
      var lastKnownHash := cache[|cache| - 1];
      var lastKnownNumber := number - |cache|;
      while true
        invariant Valid() && old(cache) <= cache
        invariant 0 < |cache| && lastKnownHash == cache[|cache| - 1] && lastKnownNumber == number - |cache|
        invariant n < lastKnownNumber
        decreases lastKnownNumber
      {
        assert OnPath(getHeader, number, parentHash, lastKnownHash, lastKnownNumber);
        assert Walk(getHeader, lastKnownHash, lastKnownNumber, n) == Ancestor(getHeader, number, parentHash, n);
        var header := getHeader(lastKnownHash, lastKnownNumber);
        if header.None? {
          break;
        }
        StepOnPath(getHeader, number, parentHash, lastKnownHash, lastKnownNumber);
        cache := cache + [header.value.parentHash];
        lastKnownHash := header.value.parentHash;
        lastKnownNumber := header.value.number - 1;
        if n == lastKnownNumber {
          assert Walk(getHeader, lastKnownHash, n, n) == Ancestor(getHeader, number, parentHash, n);
          return lastKnownHash;
        }
      }
      return ZERO_HASH;
    }

    /** Any sequence of queries, including ones after a lookup ran off the known chain, is answered
        as if there were no cache. */
    method GetHashes(queries: seq<nat>) returns (answers: seq<Hash>)
      requires Valid() && forall i :: 0 <= i < |queries| ==> queries[i] < number
      modifies this
      ensures Valid() && |answers| == |queries|
      ensures forall i :: 0 <= i < |queries| ==> answers[i] == Ancestor(getHeader, number, parentHash, queries[i])
    {
      answers := [];
      for i := 0 to |queries|
        invariant Valid() && |answers| == i
        invariant forall j :: 0 <= j < i ==> answers[j] == Ancestor(getHeader, number, parentHash, queries[j])
      {
        var h := GetHash(queries[i]);
        answers := answers + [h];
      }
    }
  }
}
