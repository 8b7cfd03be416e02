/**
 * The committer object when nothing interleaves: what one `CommitNow` leaves in the store, on the
 * node and in the dirty set. The interleaved protocol is in module CommitProtocol.
 */
module Committer {
  import opened Objects
  import opened Wrappers
  import opened Manifest
  import Hex
  import Mem = MemoryStore
  import Listing = ObjectListing

  datatype CommitResult = Committed(root: string, seq_: int) | ActBucket | NoBatch | BuildFailed(error: BuildError)

  /** The paging loop: reads the whole listing, whatever the page size. */
  method CollectObjects(store: Mem.Memory, pageSize: nat) returns (objects: seq<Object>)
    requires store.Valid() && pageSize > 0
    ensures objects == LiveListing(store.objects, "", "")
  {
    objects := [];
    var after := "";
    assert [] + LiveListing(store.objects, "", "") == LiveListing(store.objects, "", "");
    while true
      invariant LiveListing(store.objects, "", "") == objects + LiveListing(store.objects, "", after)
      decreases |LiveListing(store.objects, "", after)|
    {
      var page := store.List("", after, pageSize);
      Listing.ReadOne(store.objects, objects, after, pageSize, page);
      objects := objects + page;
      if |page| < pageSize {
        return;
      }
      after := page[|page| - 1].key;
    }
  }

  /** How a build ends, and what it leaves on the node. */
  function Attempt(env: Env, rec: Option<string>, node: Node, c: Commit): (CommitResult, Node) {
    var w := BuildWork(env, rec, node, c);
    (if w.error.Some? then BuildFailed(w.error.value) else Committed(Hex.Encode(env.hash(Manifest(w.trie.forks))), c.seq_), w.node)
  }

  class CommitLoop {
    const env: Env
    var dirty: set<string>
    var node: Node

    constructor (e: Env)
      ensures env == e && dirty == {} && node == map[]
    {
      env, dirty, node := e, {}, map[];
    }

    method Notify(bucket: string)
      modifies this`dirty
      ensures dirty == old(dirty) + {bucket}
    {
      dirty := dirty + {bucket};
    }

    /** The mark is cleared first, and stays cleared however the commit ends; `c` is the commit attempted. */
    method CommitNow(store: Mem.Memory, act: bool, haveBatch: bool, rec: Option<string>, time: int, pageSize: nat)
      returns (r: CommitResult, ghost c: Commit)
      requires store.Valid() && pageSize > 0
      modifies this`dirty, this`node, store`headRoot, store`commitSeq
      ensures dirty == old(dirty) - {store.bucket}
      ensures act ==> r == ActBucket && node == old(node)
      ensures !act && !haveBatch ==> r == NoBatch && node == old(node)
      ensures c == Commit(CommitVersion, store.bucket, old(store.commitSeq) + 1, old(store.headRoot), time, LiveListing(store.objects, "", ""))
      ensures !act && haveBatch ==> (r, node) == Attempt(env, rec, old(node), c)
      ensures r.Committed? ==> store.headRoot == r.root && store.commitSeq == r.seq_
      ensures !r.Committed? ==> store.headRoot == old(store.headRoot) && store.commitSeq == old(store.commitSeq)
    {
      c := Commit(CommitVersion, store.bucket, store.commitSeq + 1, store.headRoot, time, LiveListing(store.objects, "", ""));
      dirty := dirty - {store.bucket};
      if act {
        return ActBucket, c;
      }
      if !haveBatch {
        return NoBatch, c;
      }
      r := CollectAndBuild(store, c, rec, time, pageSize);
    }

    method CollectAndBuild(store: Mem.Memory, ghost c: Commit, rec: Option<string>, time: int, pageSize: nat) returns (r: CommitResult)
      requires store.Valid() && pageSize > 0
      requires c == Commit(CommitVersion, store.bucket, store.commitSeq + 1, store.headRoot, time, LiveListing(store.objects, "", ""))
      modifies this`node, store`headRoot, store`commitSeq
      ensures (r, node) == Attempt(env, rec, old(node), c)
      ensures r.Committed? ==> store.headRoot == r.root && store.commitSeq == r.seq_
      ensures !r.Committed? ==> store.headRoot == old(store.headRoot) && store.commitSeq == old(store.commitSeq)
    {
      var objects := CollectObjects(store, pageSize);
      r := BuildAndSetHead(store, Commit(CommitVersion, store.bucket, store.commitSeq + 1, store.headRoot, time, objects), rec);
    }

    /** The build proper: save the commit, and on success move the head. */
    method BuildAndSetHead(store: Mem.Memory, c: Commit, rec: Option<string>) returns (r: CommitResult)
      modifies this`node, store`headRoot, store`commitSeq
      ensures (r, node) == Attempt(env, rec, old(node), c)
      ensures r.Committed? ==> store.headRoot == r.root && store.commitSeq == r.seq_
      ensures !r.Committed? ==> store.headRoot == old(store.headRoot) && store.commitSeq == old(store.commitSeq)
    {
      var built := Build(env, rec, node, c);
      node := built.node;
      if built.NotBuilt? {
        return BuildFailed(built.error);
      }
      store.headRoot, store.commitSeq := built.root, c.seq_;
      return Committed(built.root, c.seq_);
    }
  }
}
