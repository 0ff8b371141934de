/**
 * The blob backend: a bucket of keys whose calls may be refused, its listing, and bulk removal, both
 * key by key and in S3's chunks.
 */
module Buckets {
  import opened Paths

  const CHUNK_SIZE := 1000

  /** The i-th slice that bulk removal sends. */
  function Chunk(keys: seq<string>, i: nat): seq<string>
    requires i * CHUNK_SIZE <= |keys|
  {
    var end := i * CHUNK_SIZE + CHUNK_SIZE;
    keys[i * CHUNK_SIZE..if end > |keys| then |keys| else end]
  }

  function Flatten(chunks: seq<seq<string>>): seq<string> {
    if |chunks| == 0 then [] else Flatten(chunks[..|chunks| - 1]) + chunks[|chunks| - 1]
  }

  /** The requests are the first slices, in order. */
  ghost predicate FirstChunks(keys: seq<string>, requests: seq<seq<string>>) {
    && |requests| <= |keys| / CHUNK_SIZE + 1
    && forall i :: 0 <= i < |requests| ==> i * CHUNK_SIZE <= |keys| && requests[i] == Chunk(keys, i)
  }

  /** The first slices concatenate to the keys before the next slice's start. */
  lemma {:induction false} ChunksConcatenate(keys: seq<string>, requests: seq<seq<string>>)
    requires FirstChunks(keys, requests)
    ensures Flatten(requests) ==
            keys[..if |requests| * CHUNK_SIZE > |keys| then |keys| else |requests| * CHUNK_SIZE]
  {
    if |requests| > 0 {
      var n := |requests| - 1;
      ChunksConcatenate(keys, requests[..n]);
      assert keys[..n * CHUNK_SIZE] + Chunk(keys, n) ==
             keys[..if |requests| * CHUNK_SIZE > |keys| then |keys| else |requests| * CHUNK_SIZE];
    }
  }

  /** Any number of first slices is a prefix of the keys in small pieces; all of them are the keys. */
  lemma WholeChunks(keys: seq<string>, requests: seq<seq<string>>)
    requires FirstChunks(keys, requests)
    ensures Flatten(requests) <= keys
    ensures forall i :: 0 <= i < |requests| ==> |requests[i]| <= CHUNK_SIZE
    ensures |requests| == |keys| / CHUNK_SIZE + 1 ==>
      Flatten(requests) == keys && (requests[|requests| - 1] == [] <==> |keys| % CHUNK_SIZE == 0)
  {
    ChunksConcatenate(keys, requests);
    assert keys[..|keys|] == keys;
  }

  lemma OneMoreChunk(keys: seq<string>, requests: seq<seq<string>>)
    requires FirstChunks(keys, requests) && |requests| <= |keys| / CHUNK_SIZE
    ensures
      var start := |requests| * 1000;
      start <= |keys| &&
      FirstChunks(keys, requests + [keys[start..if start + 1000 > |keys| then |keys| else start + 1000]])
  {
  }

  lemma RemovedBoth(keys: set<string>, a: seq<string>, b: seq<string>)
    ensures keys - (set k | k in a) - (set k | k in b) == keys - set k | k in a + b
  {
  }

  lemma NoChunks(keys: seq<string>)
    ensures FirstChunks(keys, [])
  {
  }

  /** S3's answer to one request: none at all, or the keys it reports deleted. */
  datatype Reply = NoOutput | Output(deleted: seq<string>)

  /** All the keys that S3 reports deleted in its answers, in order. */
  function Reported(requests: seq<seq<string>>, reply: seq<string> -> Reply): seq<string> {
    if |requests| == 0 then []
    else
      var last := reply(requests[|requests| - 1]);
      Reported(requests[..|requests| - 1], reply) + if last.Output? then last.deleted else []
  }

  lemma ReportedLast(requests: seq<seq<string>>, last: seq<string>, reply: seq<string> -> Reply)
    ensures Reported(requests + [last], reply) ==
            Reported(requests, reply) + if reply(last).Output? then reply(last).deleted else []
  {
    assert (requests + [last])[..|requests|] == requests;
  }

  function Accepted(keys: seq<string>, accepts: string -> bool): seq<string> {
    if |keys| == 0 then []
    else
      var n := |keys| - 1;
      Accepted(keys[..n], accepts) + if accepts(keys[n]) then [keys[n]] else []
  }

  lemma {:induction false} AcceptedMembers(keys: seq<string>, accepts: string -> bool)
    ensures forall k :: k in Accepted(keys, accepts) <==> k in keys && accepts(k)
  {
    if |keys| > 0 {
      AcceptedMembers(keys[..|keys| - 1], accepts);
      assert keys == keys[..|keys| - 1] + [keys[|keys| - 1]];
    }
  }

  class Bucket {
    var keys: set<string>

    constructor (keys: set<string>)
      ensures this.keys == keys
    {
      this.keys := keys;
    }

    /** Writes an object; a refused call changes nothing. */
    method Create(key: string, accept: bool) returns (ok: bool)
      modifies this
      ensures ok == accept && keys == if ok then old(keys) + {key} else old(keys)
    {
      ok := accept;
      if ok {
        keys := keys + {key};
      }
    }

    /** Opens an object for reading; the call fails if there is none, or is refused. */
    method Open(key: string, accept: bool) returns (ok: bool)
      ensures ok == (accept && key in keys)
    {
      ok := accept && key in keys;
    }

    method Remove(key: string, accept: bool) returns (ok: bool)
      modifies this
      ensures ok == accept && keys == if ok then old(keys) - {key} else old(keys)
    {
      ok := accept;
      if ok {
        keys := keys - {key};
      }
    }

    /** The bucket's keys, each once, in some order. */
    method Listing() returns (listing: seq<string>)
      ensures forall k :: k in listing <==> k in keys
      ensures forall i, j :: 0 <= i < j < |listing| ==> listing[i] != listing[j]
      ensures |listing| == |keys|
    {
      listing := [];
      var left := keys;
      while left != {}
        invariant left <= keys && |listing| + |left| == |keys|
        invariant forall k :: k in keys <==> k in left || k in listing
        invariant forall k :: k in listing ==> k !in left
        invariant forall i, j :: 0 <= i < j < |listing| ==> listing[i] != listing[j]
      {
        var k :| k in left;
        listing, left := listing + [k], left - {k};
      }
    }

    /** The names of the files directly in a directory. */
    method ReadDir(path: string) returns (names: seq<string>)
      ensures forall name :: name in names <==> '/' !in name && path + "/" + name in keys
    {
      var listing := Listing();
      names := [];
      for n := 0 to |listing|
        invariant forall name :: name in names <==> '/' !in name && path + "/" + name in listing[..n]
      {
        var key := listing[n];
        if path + "/" <= key && '/' !in key[|path| + 1..] {
          var name := key[|path| + 1..];
          assert key == path + "/" + name;
          BaseOfFile(path, name);
          names := names + [Base(key)];
        }
        assert forall name :: path + "/" + name == key ==> name == key[|path| + 1..];
      }
      assert listing[..|listing|] == listing;
    }

    /** RemoveAll of the filesystem and memory providers: one removal a key, and the last one's error. */
    method RemoveAll(toRemove: seq<string>, accepts: string -> bool) returns (deletedKeys: seq<string>, ok: bool)
      modifies this
      ensures deletedKeys == Accepted(toRemove, accepts)
      ensures keys == old(keys) - set k | k in deletedKeys
      ensures ok == (toRemove == [] || accepts(toRemove[|toRemove| - 1]))
    {
      deletedKeys, ok := [], true;
      for n := 0 to |toRemove|
        invariant deletedKeys == Accepted(toRemove[..n], accepts)
        invariant keys == old(keys) - set k | k in deletedKeys
        invariant ok == (n == 0 || accepts(toRemove[n - 1]))
      {
        assert toRemove[..n + 1][..n] == toRemove[..n];
        ok := Remove(toRemove[n], accepts(toRemove[n]));
        if ok {
          deletedKeys := deletedKeys + [toRemove[n]];
        }
      }
      assert toRemove[..|toRemove|] == toRemove;
    }

    /**
     * RemoveAll of the S3 provider; `reply` is S3's answer to a request, and what it reports is gone from the
     * bucket. Keys that fill whole chunks are followed by an empty request. When S3 gives no answer, what it
     * reported for earlier chunks is gone but not returned. The requests made are returned as well.
     */
    method RemoveAllS3(toRemove: seq<string>, reply: seq<string> -> Reply)
      returns (deletedKeys: seq<string>, ok: bool, requests: seq<seq<string>>)
      modifies this
      ensures forall i :: 0 <= i < |requests| ==> |requests[i]| <= 1000
      ensures ok ==> Flatten(requests) == toRemove && |requests| == |toRemove| / 1000 + 1
      ensures ok ==> (requests[|requests| - 1] == [] <==> |toRemove| % 1000 == 0)
      ensures !ok ==> Flatten(requests) <= toRemove
      ensures ok <==> forall i :: 0 <= i < |requests| ==> reply(requests[i]).Output?
      ensures keys == old(keys) - set k | k in Reported(requests, reply)
      ensures deletedKeys == if ok then Reported(requests, reply) else []
    {
      deletedKeys, requests := [], [];
      assert Reported([], reply) == [];
      NoChunks(toRemove);
      hide Reported, Flatten, FirstChunks;
      for i := 0 to |toRemove| / 1000 + 1
        invariant |requests| == i
        invariant FirstChunks(toRemove, requests)
        invariant forall j :: 0 <= j < i ==> reply(requests[j]).Output?
        invariant deletedKeys == Reported(requests, reply)
        invariant keys == old(keys) - set k | k in deletedKeys
      {
        OneMoreChunk(toRemove, requests);
        var startChunk := i * 1000;
        var endChunk := i * 1000 + 1000;
        if endChunk > |toRemove| {
          endChunk := |toRemove|;
        }
        var chunk := toRemove[startChunk..endChunk];
        ReportedLast(requests, chunk, reply);
        requests := requests + [chunk];
        var out := reply(chunk);
        if out.NoOutput? {
          WholeChunks(toRemove, requests);
          assert !reply(requests[i]).Output?;
          return [], false, requests;
        }
        RemovedBoth(old(keys), deletedKeys, out.deleted);
        deletedKeys := deletedKeys + out.deleted;
        keys := keys - set k | k in out.deleted;
      }
      WholeChunks(toRemove, requests);
      ok := true;
    }
  }
}
