/**
 * The part of etcd v2 the server relies on: the children of the "agents" directory, each a
 * plain key or a directory of records. This is an assumption about a program outside the
 * repository, written out. Expiry is exact: a key is there while the clock is before its expiry.
 */
module Etcd {
  import opened Types
  import opened Decode

  datatype Expiry = Never | At(time: Time)

  predicate Live(e: Expiry, now: Time) {
    e.Never? || now < e.time
  }

  datatype Leaf = Leaf(doc: Doc, expiry: Expiry)

  datatype Node =
    | File(doc: Doc, expiry: Expiry)
    | Dir(expiry: Expiry, leaves: map<string, Leaf>)

  type Tree = map<string, Node>

  function Leaves(node: Node): map<string, Leaf> {
    if node.Dir? then node.leaves else map[]
  }

  function LiveLeaves(leaves: map<string, Leaf>, now: Time): map<string, Leaf> {
    map k | k in leaves && Live(leaves[k].expiry, now) :: leaves[k]
  }

  function Prune(node: Node, now: Time): Node {
    if node.Dir? then node.(leaves := LiveLeaves(node.leaves, now)) else node
  }

  /** What is left of the tree at time `now`: an expired directory takes its subtree with it. */
  function Expire(tree: Tree, now: Time): Tree {
    map p | p in tree && Live(tree[p].expiry, now) :: Prune(tree[p], now)
  }

  lemma ExpireExpired(tree: Tree, t0: Time, t1: Time)
    requires t0 <= t1
    ensures Expire(Expire(tree, t0), t1) == Expire(tree, t1)
  {
    var a, b := Expire(Expire(tree, t0), t1), Expire(tree, t1);
    forall p | p in b ensures p in a && a[p] == b[p] {
      if tree[p].Dir? {
        assert LiveLeaves(LiveLeaves(tree[p].leaves, t0), t1) == LiveLeaves(tree[p].leaves, t1);
      }
    }
  }

  datatype PrevExist = MustExist | MustNotExist

  /** Set with `Dir: true` and a TTL. A refresh changes nothing but the TTL. */
  function SetDir(tree: Tree, now: Time, name: string, prev: PrevExist, refresh: bool, ttl: Duration)
      : (Tree, bool)
  {
    if prev.MustExist? then
      if name !in tree then (tree, false)
      else
        var node := tree[name];
        var kept := if node.Dir? || refresh then node else node.(doc := EMPTY_DOC);
        (tree[name := kept.(expiry := At(now + ttl))], true)
    else if name in tree then (tree, false)
    else (tree[name := Dir(At(now + ttl), map[])], true)
  }

  /** Delete with `Dir: false`, which refuses a directory. */
  function DeleteFile(tree: Tree, name: string): (Tree, bool) {
    if name in tree && tree[name].File? then (tree - {name}, true) else (tree, false)
  }

  /** Set of a nested key with PrevNoExist; a missing parent is made, without a TTL. */
  function CreateLeaf(tree: Tree, now: Time, name: string, key: string, doc: Doc, ttl: Duration)
      : (Tree, bool)
  {
    var leaf := Leaf(doc, At(now + ttl));
    if name !in tree then (tree[name := Dir(Never, map[key := leaf])], true)
    else if tree[name].File? || key in tree[name].leaves then (tree, false)
    else (tree[name := tree[name].(leaves := tree[name].leaves[key := leaf])], true)
  }

  /** One child of the listed directory, with the keys and values below it. */
  datatype Listed = Listed(name: string, entries: seq<(string, Doc)>)

  /** `entries` runs once through all of `leaves`, in any order. */
  predicate Enumerates(entries: seq<(string, Doc)>, leaves: map<string, Leaf>) {
    && (forall i, j :: 0 <= i < j < |entries| ==> entries[i].0 != entries[j].0)
    && (forall i :: 0 <= i < |entries| ==>
          entries[i].0 in leaves && entries[i].1 == leaves[entries[i].0].doc)
    && (forall k :: k in leaves ==> exists i :: 0 <= i < |entries| && entries[i].0 == k)
  }

  /** `listing` runs once through all of `tree`, in any order. */
  predicate IsListing(listing: seq<Listed>, tree: Tree) {
    && (forall i, j :: 0 <= i < j < |listing| ==> listing[i].name != listing[j].name)
    && (forall i :: 0 <= i < |listing| ==>
          listing[i].name in tree && Enumerates(listing[i].entries, Leaves(tree[listing[i].name])))
    && (forall p :: p in tree ==> exists i :: 0 <= i < |listing| && listing[i].name == p)
  }

  datatype Kind = NoKey | PlainKey | Directory

  function Lookup(tree: Tree, name: string): Kind {
    if name !in tree then NoKey else if tree[name].Dir? then Directory else PlainKey
  }

  /** The client's key API on the "agents" directory, with the server's clock beside it. */
  class KeysAPI {
    var now: Time
    var tree: Tree

    /** Nothing expired is visible. */
    ghost predicate Valid()
      reads this
    {
      Expire(tree, now) == tree
    }

    constructor (now: Time, tree: Tree)
      ensures Valid() && this.now == now && this.tree == Expire(tree, now)
    {
      this.now, this.tree := now, Expire(tree, now);
      new;
      ExpireExpired(tree, now, now);
    }

    /** Time passes, and what has expired goes away. */
    method Advance(t: Time)
      requires now <= t
      modifies this
      ensures Valid() && now == t && tree == Expire(old(tree), t)
    {
      now := t;
      ExpireExpired(tree, t, t);
      tree := Expire(tree, t);
    }

    method Get(name: string) returns (found: Kind)
      ensures found == Lookup(tree, name)
    {
      found := if name !in tree then NoKey else if tree[name].Dir? then Directory else PlainKey;
    }

    method Set(name: string, prev: PrevExist, refresh: bool, ttl: Duration) returns (ok: bool)
      requires Valid()
      modifies `tree
      ensures Valid()
      ensures (tree, ok) == SetDir(old(tree), now, name, prev, refresh, ttl)
    {
      var (next, done) := SetDir(tree, now, name, prev, refresh, ttl);
      tree, ok := next, done;
      assert LiveLeaves(map[], now) == map[];
      assert forall p :: p in old(tree) ==> old(Expire(tree, now))[p] == old(tree)[p];
    }

    method Delete(name: string) returns (ok: bool)
      requires Valid()
      modifies `tree
      ensures Valid()
      ensures (tree, ok) == DeleteFile(old(tree), name)
    {
      var (next, done) := DeleteFile(tree, name);
      tree, ok := next, done;
      assert forall p :: p in old(tree) ==> old(Expire(tree, now))[p] == old(tree)[p];
    }

    method Create(name: string, key: string, doc: Doc, ttl: Duration) returns (ok: bool)
      requires Valid()
      modifies `tree
      ensures Valid()
      ensures (tree, ok) == CreateLeaf(old(tree), now, name, key, doc, ttl)
    {
      var (next, done) := CreateLeaf(tree, now, name, key, doc, ttl);
      assert name in tree ==> Expire(tree, now)[name] == tree[name];
      tree, ok := next, done;
      assert forall p :: p in old(tree) ==> old(Expire(tree, now))[p] == old(tree)[p];
      if ok {
        assert LiveLeaves(tree[name].leaves, now) == tree[name].leaves;
      }
    }

    /** Get with `Recursive: true`; the order is etcd's own. */
    method List() returns (listing: seq<Listed>)
      ensures IsListing(listing, tree)
    {
      listing := [];
      var todo := tree.Keys;
      while todo != {}
        invariant todo <= tree.Keys
        invariant forall i, j :: 0 <= i < j < |listing| ==> listing[i].name != listing[j].name
        invariant forall i :: 0 <= i < |listing| ==> listing[i].name in tree && listing[i].name !in todo
        invariant forall i :: 0 <= i < |listing| ==> Enumerates(listing[i].entries, Leaves(tree[listing[i].name]))
        invariant forall p :: p in tree && p !in todo ==> exists i :: 0 <= i < |listing| && listing[i].name == p
      {
        var name :| name in todo;
        var entries := Entries(Leaves(tree[name]));
        ghost var before := listing;
        listing := listing + [Listed(name, entries)];
        todo := todo - {name};
        forall p | p in tree && p !in todo ensures exists i :: 0 <= i < |listing| && listing[i].name == p {
          if p == name {
            assert listing[|before|].name == p;
          } else {
            var i :| 0 <= i < |before| && before[i].name == p;
            assert listing[i].name == p;
          }
        }
      }
    }

    static method Entries(leaves: map<string, Leaf>) returns (entries: seq<(string, Doc)>)
      ensures Enumerates(entries, leaves)
    {
      entries := [];
      var todo := leaves.Keys;
      while todo != {}
        invariant todo <= leaves.Keys
        invariant forall i, j :: 0 <= i < j < |entries| ==> entries[i].0 != entries[j].0
        invariant forall i :: 0 <= i < |entries| ==>
          entries[i].0 in leaves && entries[i].0 !in todo && entries[i].1 == leaves[entries[i].0].doc
        invariant forall k :: k in leaves && k !in todo ==> exists i :: 0 <= i < |entries| && entries[i].0 == k
      {
        var k :| k in todo;
        ghost var before := entries;
        entries := entries + [(k, leaves[k].doc)];
        todo := todo - {k};
        forall k' | k' in leaves && k' !in todo ensures exists i :: 0 <= i < |entries| && entries[i].0 == k' {
          if k' == k {
            assert entries[|before|].0 == k';
          } else {
            var i :| 0 <= i < |before| && before[i].0 == k';
            assert entries[i].0 == k';
          }
        }
      }
    }
  }
}
