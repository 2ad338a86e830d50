/**
 dedupe.c: storing a directory tree and extracting it again.
 */
module Backup {
  import opened Bytes
  import opened BsPatch
  import opened ManifestText
  import opened Dedupe

  /** struct stat, with the whole mode. */
  datatype Stat = Stat(mode: nat, uid: int, gid: int, atime: nat, mtime: nat, ctime: nat)

  datatype Node =
    | File(stat: Stat, content: seq<byte>)
    | Dir(stat: Stat, children: seq<Child>)
    | Link(stat: Stat, target: string)
    | Special(stat: Stat)

  datatype Child = Child(name: string, node: Node)

  /** st_mode & (S_IRWXU | S_IRWXG | S_IRWXO | S_ISUID | S_ISGID), that is & 06777. */
  function Perm(mode: nat): (r: nat) {
    mode % 512 + mode / 1024 % 4 * 1024
  }

  function Pow2(k: nat): (r: nat)
    ensures r > 0
  {
    if k == 0 then 1 else 2 * Pow2(k - 1)
  }

  predicate BitSet(n: nat, k: nat) {
    if k == 0 then n % 2 == 1 else BitSet(n / 2, k - 1)
  }

  /** The nine permission bits, set-group-ID and set-user-ID are kept; the sticky bit and the file type are not. */
  lemma PermBits(mode: nat, k: nat)
    ensures BitSet(Perm(mode), k) <==> BitSet(mode, k) && (k < 9 || k == 10 || k == 11)
  {
    var low, high, kept := mode % 512, mode / 512, 2 * (mode / 1024 % 4);
    assert Pow2(3) == 8 && Pow2(6) == 64 && Pow2(9) == 512;
    assert Perm(mode) == 512 * kept + low && mode == 512 * high + low;
    LowBits(high, kept, low, 9, k);
    HighBits(high, low, 9, k);
    HighBits(kept, low, 9, k);
    if k >= 9 {
      assert kept == 2 * (high / 2 % 4);
      FourBits(high, k - 9);
    }
  }

  /** Below bit `j` only the remainder counts. */
  lemma {:induction false} LowBits(a: nat, b: nat, r: nat, j: nat, k: nat)
    ensures k < j ==> BitSet(Pow2(j) * a + r, k) == BitSet(Pow2(j) * b + r, k)
    decreases j
  {
    if k < j {
      var x, y := Pow2(j - 1) * a, Pow2(j - 1) * b;
      Doubled(j, a);
      Doubled(j, b);
      assert (2 * x + r) / 2 == x + r / 2 && (2 * y + r) / 2 == y + r / 2;
      if k > 0 {
        LowBits(a, b, r / 2, j - 1, k - 1);
      }
    }
  }

  /** From bit `j` on only the quotient does. */
  lemma {:induction false} HighBits(a: nat, r: nat, j: nat, k: nat)
    requires r < Pow2(j)
    ensures k >= j ==> BitSet(Pow2(j) * a + r, k) == BitSet(a, k - j)
    decreases j
  {
    if k >= j && j > 0 {
      var x := Pow2(j - 1) * a;
      Doubled(j, a);
      assert (2 * x + r) / 2 == x + r / 2;
      HighBits(a, r / 2, j - 1, k - 1);
    }
  }

  lemma Doubled(j: nat, a: nat)
    requires j > 0
    ensures Pow2(j) * a == 2 * (Pow2(j - 1) * a)
  {
  }

  lemma FourBits(n: nat, k: nat)
    ensures BitSet(2 * (n / 2 % 4), k) <==> BitSet(n, k) && (k == 1 || k == 2)
  {
    var m := n / 2 % 4;
    assert 2 * m / 2 == m && m / 2 / 2 == 0 && m / 2 % 2 == n / 2 / 2 % 2;
    if k > 2 {
      NoBits(k - 3);
      assert BitSet(2 * m, k) == BitSet(m, k - 1) == BitSet(m / 2, k - 2) == BitSet(m / 2 / 2, k - 3);
    } else {
      assert k == 2 ==> BitSet(n, k) == BitSet(n / 2, 1) == BitSet(n / 2 / 2, 0);
      assert k == 2 ==> BitSet(2 * m, k) == BitSet(m, 1) == BitSet(m / 2, 0);
      assert k == 1 ==> BitSet(n, k) == BitSet(n / 2, 0) && BitSet(2 * m, k) == BitSet(m, 0);
    }
  }

  lemma {:induction false} NoBits(k: nat)
    ensures !BitSet(0, k)
  {
    if k > 0 {
      NoBits(k - 1);
    }
  }

  function MetaOf(s: Stat): (r: Meta) {
    Meta(Perm(s.mode), s.uid, s.gid, s.atime, s.mtime, s.ctime)
  }

  /** (int) st_size. */
  function IntSize(n: nat): (r: int) {
    var v := n % 0x1_0000_0000;
    if v < 0x8000_0000 then v else v - 0x1_0000_0000
  }

  /** The size that is printed is the file's modulo 2^32, as a signed number; its own below two gigabytes. */
  lemma IntSizeExactly(n: nat)
    ensures -0x8000_0000 <= IntSize(n) < 0x8000_0000 && (n - IntSize(n)) % 0x1_0000_0000 == 0
    ensures IntSize(n) == n <==> n < 0x8000_0000
  {
  }

  // ----- what a backup writes -----

  /** A hash, printed, with a slash after the third character. */
  type Hash = seq<byte> -> string

  /** store_st: the manifest entries of a node, in the order written. */
  ghost function Entered(n: Node, path: string, excludes: set<string>, key: Hash): seq<Item>
    decreases n, 0
  {
    match n
    case File(s, content) => [FileItem(MetaOf(s), path, key(content), IntSize(|content|))]
    case Dir(s, children) => [DirItem(MetaOf(s), path)] + EnteredAll(children, path, excludes, key)
    case Link(s, target) => [LinkItem(MetaOf(s), path, target)]
    case Special(_) => []
  }

  /** store_dir: excluded names are skipped with everything below them. */
  ghost function EnteredAll(cs: seq<Child>, dir: string, excludes: set<string>, key: Hash): seq<Item>
    decreases cs, 0
  {
    if cs == [] then []
    else
      var p := dir + "/" + cs[0].name;
      (if p in excludes then [] else Entered(cs[0].node, p, excludes, key)) + EnteredAll(cs[1..], dir, excludes, key)
  }

  /** store_file: an existing blob of the same size is kept, otherwise the contents are copied. */
  function StoreBlob(store: Store, key: Hash, content: seq<byte>): (r: Store) {
    var k := key(content);
    if k in store && |store[k]| == |content| then store else store[k := content]
  }

  ghost function Stored(n: Node, path: string, excludes: set<string>, key: Hash, store: Store): Store
    decreases n, 0
  {
    match n
    case File(_, content) => StoreBlob(store, key, content)
    case Dir(_, children) => StoredAll(children, path, excludes, key, store)
    case Link(_, _) => store
    case Special(_) => store
  }

  ghost function StoredAll(cs: seq<Child>, dir: string, excludes: set<string>, key: Hash, store: Store): Store
    decreases cs, 0
  {
    if cs == [] then store
    else
      var p := dir + "/" + cs[0].name;
      StoredAll(cs[1..], dir, excludes, key, if p in excludes then store else Stored(cs[0].node, p, excludes, key,
        store))
  }

  /** A running backup: DEDUPE_STORE_CONTEXT and the files it writes. */
  class Context {
    var manifest: string
    var store: Store
    const excludes: set<string>
    const key: Hash

    constructor (excludes: set<string>, key: Hash, store: Store)
      ensures manifest == HEADER && this.store == store && this.excludes == excludes && this.key == key
    {
      manifest := HEADER;
      this.store := store;
      this.excludes := excludes;
      this.key := key;
    }

    /** store_st. */
    method StoreSt(n: Node, path: string)
      modifies this
      ensures manifest == old(manifest) + PrintAll(Entered(n, path, excludes, key))
      ensures store == Stored(n, path, excludes, key, old(store))
      decreases n, 0
    {
      hide PrintItem, MetaOf, IntSize, StoreBlob, PrintAll;
      PrintNone();
      match n {
        case File(s, content) =>
          PrintOne(FileItem(MetaOf(s), path, key(content), IntSize(|content|)));
          store := StoreBlob(store, key, content);
          manifest := manifest + PrintItem(FileItem(MetaOf(s), path, key(content), IntSize(|content|)));
        case Dir(s, children) =>
          ghost var start := manifest;
          manifest := manifest + PrintItem(DirItem(MetaOf(s), path));
          StoreDir(children, path);
          PrintAllAppend([DirItem(MetaOf(s), path)], EnteredAll(children, path, excludes, key));
          PrintOne(DirItem(MetaOf(s), path));
        case Link(s, target) =>
          PrintOne(LinkItem(MetaOf(s), path, target));
          manifest := manifest + PrintItem(LinkItem(MetaOf(s), path, target));
        case Special(_) =>
          assert manifest + [] == manifest;
      }
    }

    /** store_dir. */
    method StoreDir(children: seq<Child>, dir: string)
      modifies this
      ensures manifest == old(manifest) + PrintAll(EnteredAll(children, dir, excludes, key))
      ensures store == StoredAll(children, dir, excludes, key, old(store))
      decreases children, 0
    {
      hide PrintAll, Entered, Stored;
      var i := 0;
      assert children[0..] == children;
      while i < |children|
        invariant 0 <= i <= |children|
        invariant old(manifest) + PrintAll(EnteredAll(children, dir, excludes, key)) == manifest
            + PrintAll(EnteredAll(children[i..], dir, excludes, key))
        invariant StoredAll(children, dir, excludes, key, old(store)) == StoredAll(children[i..], dir, excludes,
            key, store)
      {
        ghost var rest := children[i..];
        assert rest[0] == children[i] && rest[1..] == children[i+1..];
        var p := dir + "/" + children[i].name;
        ghost var tail := EnteredAll(children[i+1..], dir, excludes, key);
        if p !in excludes {
          PrintAllAppend(Entered(children[i].node, p, excludes, key), tail);
          Regroup(manifest, PrintAll(Entered(children[i].node, p, excludes, key)), PrintAll(tail));
          StoreSt(children[i].node, p);
        } else {
          assert [] + tail == tail;
        }
        i := i + 1;
      }
      PrintNone();
      assert manifest + [] == manifest;
    }
  }

  lemma Regroup(a: string, b: string, c: string)
    ensures a + (b + c) == a + b + c
  {
  }

  lemma PrintNone()
    ensures PrintAll([]) == []
  {
  }

  lemma {:induction false} PrintAllAppend(a: seq<Item>, b: seq<Item>)
    ensures PrintAll(a + b) == PrintAll(a) + PrintAll(b)
    decreases |a|
  {
    hide PrintItem;
    if a == [] {
      assert a + b == b;
    } else {
      assert (a + b)[1..] == a[1..] + b;
      PrintAllAppend(a[1..], b);
    }
  }

  lemma PrintOne(i: Item)
    ensures PrintAll([i]) == PrintItem(i)
  {
    hide PrintItem;
    assert [i][1..] == [];
    assert PrintItem(i) + [] == PrintItem(i);
  }

  // ----- what extraction makes -----

  datatype Made =
    | MadeFile(content: seq<byte>, uid: int, gid: int, mode: nat)
    | MadeDir(uid: int, gid: int, mode: nat)
    | MadeLink(target: string, uid: int, gid: int)

  type Tree = map<string, Made>

  /** The directory part of a path. */
  function Parent(path: string): (r: string) {
    if path == [] then [] else if path[|path|-1] == '/' then path[..|path|-1] else Parent(path[..|path|-1])
  }

  lemma {:induction false} ParentOf(dir: string, name: string)
    requires '/' !in name
    ensures Parent(dir + "/" + name) == dir
    decreases |name|
  {
    var p := dir + "/" + name;
    if name == [] {
      assert p[|p|-1] == '/' && p[..|p|-1] == dir;
    } else {
      assert p[|p|-1] == name[|name|-1] && p[..|p|-1] == dir + "/" + name[..|name|-1];
      ParentOf(dir, name[..|name|-1]);
    }
  }

  predicate DirExists(t: Tree, d: string) {
    d == "." || (d in t && t[d].MadeDir?)
  }

  /** One entry: a file without its blob or its directory ends the extraction, other failures go unnoticed. */
  function ExtractItem(i: Item, store: Store, t: Tree): (r: Option<Tree>) {
    var ready := DirExists(t, Parent(i.path));
    match i
    case FileItem(m, p, key, _) => if ready && key in store
        then Some(t[p := MadeFile(store[key], m.uid, m.gid, m.mode)]) else None
    case DirItem(m, p) => Some(if ready then t[p := MadeDir(m.uid, m.gid, m.mode)] else t)
    case LinkItem(m, p, target) => Some(if ready then t[p := MadeLink(target, m.uid, m.gid)] else t)
  }

  function ExtractAll(items: seq<Item>, store: Store, t: Tree): (r: Option<Tree>) {
    if items == [] then Some(t)
    else
      match ExtractItem(items[0], store, t)
      case None => None
      case Some(u) => ExtractAll(items[1..], store, u)
  }

  /** The x command on a manifest. */
  function Extract(manifest: string, store: Store): (r: Option<Tree>) {
    match ReadManifest(manifest)
    case Entries(items) => ExtractAll(items, store, map[])
    case TooNew => None
    case Unreadable => None
  }

  // ----- what the tree holds -----

  /** The part of a node that a backup keeps, under its path. */
  ghost function Kept(n: Node, path: string, excludes: set<string>): Tree
    decreases n, 0
  {
    match n
    case File(s, content) => map[path := MadeFile(content, s.uid, s.gid, Perm(s.mode))]
    case Dir(s, children) => map[path := MadeDir(s.uid, s.gid, Perm(s.mode))] + KeptAll(children, path, excludes)
    case Link(s, target) => map[path := MadeLink(target, s.uid, s.gid)]
    case Special(_) => map[]
  }

  ghost function KeptAll(cs: seq<Child>, dir: string, excludes: set<string>): Tree
    decreases cs, 0
  {
    if cs == [] then map[]
    else
      var p := dir + "/" + cs[0].name;
      (if p in excludes then map[] else Kept(cs[0].node, p, excludes)) + KeptAll(cs[1..], dir, excludes)
  }

  /** Names are single path components. */
  ghost predicate Named(n: Node)
    decreases n, 0
  {
    n.Dir? ==> NamedAll(n.children)
  }

  ghost predicate NamedAll(cs: seq<Child>)
    decreases cs, 0
  {
    cs != [] ==> '/' !in cs[0].name && Named(cs[0].node) && NamedAll(cs[1..])
  }

  // ----- the store under backups and garbage collections -----

  /** Every blob is stored under the key of its contents. */
  ghost predicate SoundStore(store: Store, key: Hash) {
    forall k :: k in store ==> key(store[k]) == k
  }

  ghost predicate CollisionFree(key: Hash) {
    forall x: seq<byte>, y: seq<byte> :: key(x) == key(y) ==> x == y
  }

  /** Nothing that was stored is lost or changed, and the store stays sound. */
  ghost predicate Grows(store: Store, after: Store, key: Hash) {
    SoundStore(after, key) && forall k :: k in store ==> k in after && after[k] == store[k]
  }

  /** Whatever the store held under the key, it has a blob of the right size then, and the others are as before. */
  lemma StoreBlobSize(store: Store, key: Hash, content: seq<byte>)
    ensures var k, after := key(content), StoreBlob(store, key, content);
      && k in after && |after[k]| == |content| && after.Keys == store.Keys + {k}
      && (forall x :: x in store && (x != k || |store[k]| == |content|) ==> after[x] == store[x])
      && (k !in store || |store[k]| != |content| ==> after[k] == content)
  {
  }

  lemma StoreBlobGrows(store: Store, key: Hash, content: seq<byte>)
    requires SoundStore(store, key) && CollisionFree(key)
    ensures Grows(store, StoreBlob(store, key, content), key) && key(content) in StoreBlob(store, key, content)
  {
    var k := key(content);
    if k in store {
      assert key(store[k]) == key(content);
    }
  }

  /** A backup makes every blob that its manifest names available. */
  lemma {:induction false} StoredHolds(n: Node, path: string, excludes: set<string>, key: Hash, store: Store)
    requires SoundStore(store, key) && CollisionFree(key)
    ensures var after := Stored(n, path, excludes, key, store);
      Grows(store, after, key) && forall k :: k in Keys(Entered(n, path, excludes, key)) ==> k in after
    decreases n, 0
  {
    hide CollisionFree;
    match n
    case File(s, content) =>
      StoreBlobGrows(store, key, content);
      KeysOne(FileItem(MetaOf(s), path, key(content), IntSize(|content|)));
    case Dir(s, children) =>
      StoredAllHolds(children, path, excludes, key, store);
      KeysAppend([DirItem(MetaOf(s), path)], EnteredAll(children, path, excludes, key));
      KeysOne(DirItem(MetaOf(s), path));
    case Link(s, target) =>
      KeysOne(LinkItem(MetaOf(s), path, target));
    case Special(_) =>
  }

  lemma {:induction false} StoredAllHolds(cs: seq<Child>, dir: string, excludes: set<string>, key: Hash, store: Store)
    requires SoundStore(store, key) && CollisionFree(key)
    ensures var after := StoredAll(cs, dir, excludes, key, store);
      Grows(store, after, key) && forall k :: k in Keys(EnteredAll(cs, dir, excludes, key)) ==> k in after
    decreases cs, 0
  {
    hide CollisionFree, Stored, Entered, Keys;
    if cs != [] {
      var p := dir + "/" + cs[0].name;
      var first, mid := if p in excludes then [] else Entered(cs[0].node, p, excludes, key), if p in excludes
        then store else Stored(cs[0].node, p, excludes, key, store);
      if p !in excludes {
        StoredHolds(cs[0].node, p, excludes, key, store);
      } else {
        KeysNone();
      }
      StoredAllHolds(cs[1..], dir, excludes, key, mid);
      KeysAppend(first, EnteredAll(cs[1..], dir, excludes, key));
    } else {
      KeysNone();
    }
  }

  lemma KeysNone()
    ensures Keys([]) == []
  {
  }

  lemma KeysOne(i: Item)
    ensures Keys([i]) == if i.FileItem? then [i.key] else []
  {
    assert [i][1..] == [];
  }

  lemma {:induction false} KeysAppend(a: seq<Item>, b: seq<Item>)
    ensures forall k :: k in Keys(a + b) <==> k in Keys(a) || k in Keys(b)
    decreases |a|
  {
    if a == [] {
      assert a + b == b;
    } else {
      assert (a + b)[1..] == a[1..] + b;
      KeysAppend(a[1..], b);
    }
  }

  /** Something else happens to the store: another backup, or a gc run that includes our manifest. */
  ghost predicate Later(manifest: string, store: Store, after: Store, key: Hash) {
    || (exists n: Node, path: string, excludes: set<string> :: after == Stored(n, path, excludes, key, store))
    || (exists ms: seq<Manifest> :: Supported(ms) && Text(manifest) in ms && after == AfterGc(ms, store))
  }

  /** The store is sound and holds every blob that the manifest's entries name. */
  ghost predicate Available(items: seq<Item>, store: Store, key: Hash) {
    SoundStore(store, key) && forall k :: k in Keys(items) ==> k in store
  }

  lemma LaterAvailable(manifest: string, items: seq<Item>, store: Store, after: Store, key: Hash)
    requires Later(manifest, store, after, key) && Available(items, store, key) && CollisionFree(key)
    requires ReadKeys(manifest) == Refs(Keys(items))
    ensures Available(items, after, key)
  {
    hide Stored, Gather, ReadKeys;
    if n: Node, path: string, excludes: set<string> :| after == Stored(n, path, excludes, key, store) {
      StoredHolds(n, path, excludes, key, store);
    } else {
      var ms: seq<Manifest> :| Supported(ms) && Text(manifest) in ms && after == AfterGc(ms, store);
      forall k | k in Keys(items)
        ensures k in after
      {
        var i :| 0 <= i < |ms| && ms[i] == Text(manifest);
        assert Referenced(ms, k);
        GcExact(ms, store, k);
      }
    }
  }

  // ----- the round trip -----

  /** Extracting a node's entries adds exactly the node's kept part. */
  lemma {:induction false} ExtractKept(n: Node, dir: string, name: string, excludes: set<string>, key: Hash,
                                       store: Store, t: Tree, rest: seq<Item>)
    requires SoundStore(store, key) && CollisionFree(key) && Named(n) && '/' !in name && DirExists(t, dir)
    requires forall k :: k in Keys(Entered(n, dir + "/" + name, excludes, key)) ==> k in store
    ensures ExtractAll(Entered(n, dir + "/" + name, excludes, key) + rest, store, t)
         == ExtractAll(rest, store, t + Kept(n, dir + "/" + name, excludes))
    decreases n, 0
  {
    hide ExtractAll, Parent, CollisionFree, Perm, IntSize;
    var path := dir + "/" + name;
    ParentOf(dir, name);
    match n
    case File(s, content) =>
      var i := FileItem(MetaOf(s), path, key(content), IntSize(|content|));
      KeysOne(i);
      SameContent(store, key, content);
      AddOne(t, path, MadeFile(content, s.uid, s.gid, Perm(s.mode)));
      ExtractCons(i, rest, store, t);
    case Dir(s, children) =>
      var i := DirItem(MetaOf(s), path);
      var inner := EnteredAll(children, path, excludes, key);
      KeysAppend([i], inner);
      assert [i] + inner + rest == [i] + (inner + rest);
      var u := t[path := MadeDir(s.uid, s.gid, Perm(s.mode))];
      ExtractCons(i, inner + rest, store, t);
      ExtractAllKept(children, path, excludes, key, store, u, rest);
      AddOne(t, path, MadeDir(s.uid, s.gid, Perm(s.mode)));
      AddAssociative(t, map[path := MadeDir(s.uid, s.gid, Perm(s.mode))], KeptAll(children, path, excludes));
    case Link(s, target) =>
      var i := LinkItem(MetaOf(s), path, target);
      AddOne(t, path, MadeLink(target, s.uid, s.gid));
      ExtractCons(i, rest, store, t);
    case Special(_) =>
      assert [] + rest == rest && t + map[] == t;
  }

  lemma AddOne(t: Tree, p: string, m: Made)
    ensures t[p := m] == t + map[p := m]
  {
  }

  lemma AddAssociative(a: Tree, b: Tree, c: Tree)
    ensures a + b + c == a + (b + c)
  {
  }

  lemma SameContent(store: Store, key: Hash, content: seq<byte>)
    requires SoundStore(store, key) && CollisionFree(key) && key(content) in store
    ensures store[key(content)] == content
  {
    assert key(store[key(content)]) == key(content);
  }

  lemma ExtractCons(i: Item, rest: seq<Item>, store: Store, t: Tree)
    ensures ExtractAll([i] + rest, store, t)
      == if ExtractItem(i, store, t).Some? then ExtractAll(rest, store, ExtractItem(i, store, t).value) else None
  {
    assert ([i] + rest)[1..] == rest;
  }

  lemma {:induction false} ExtractAllKept(cs: seq<Child>, dir: string, excludes: set<string>, key: Hash, store: Store,
                                          t: Tree, rest: seq<Item>)
    requires SoundStore(store, key) && CollisionFree(key) && NamedAll(cs) && DirExists(t, dir)
    requires forall k :: k in Keys(EnteredAll(cs, dir, excludes, key)) ==> k in store
    ensures ExtractAll(EnteredAll(cs, dir, excludes, key) + rest, store, t)
         == ExtractAll(rest, store, t + KeptAll(cs, dir, excludes))
    decreases cs, 0
  {
    hide Kept, Entered, CollisionFree, SoundStore, Keys, ExtractAll, Parent, DirExists;
    if cs == [] {
      assert [] + rest == rest && t + map[] == t;
    } else {
      var c := cs[0];
      var p := dir + "/" + c.name;
      var first := if p in excludes then [] else Entered(c.node, p, excludes, key);
      var made: Tree := if p in excludes then map[] else Kept(c.node, p, excludes);
      var tail := EnteredAll(cs[1..], dir, excludes, key);
      KeysAppend(first, tail);
      assert first + tail + rest == first + (tail + rest);
      if p !in excludes {
        ExtractKept(c.node, dir, c.name, excludes, key, store, t, tail + rest);
      } else {
        assert first + (tail + rest) == tail + rest && t + made == t;
      }
      StillDir(c.node, dir, c.name, excludes, t);
      assert DirExists(t + made, dir);
      ExtractAllKept(cs[1..], dir, excludes, key, store, t + made, rest);
      AddAssociative(t, made, KeptAll(cs[1..], dir, excludes));
    }
  }

  /** Making a child does not remove its directory. */
  lemma StillDir(n: Node, dir: string, name: string, excludes: set<string>, t: Tree)
    requires DirExists(t, dir)
    ensures DirExists(t + Kept(n, dir + "/" + name, excludes), dir)
  {
    KeptBelow(n, dir + "/" + name, excludes);
    assert |dir + "/" + name| > |dir|;
  }

  lemma {:induction false} KeptBelow(n: Node, path: string, excludes: set<string>)
    ensures forall p :: p in Kept(n, path, excludes) ==> |p| >= |path|
    decreases n, 0
  {
    if n.Dir? {
      KeptAllBelow(n.children, path, excludes);
    }
  }

  lemma {:induction false} KeptAllBelow(cs: seq<Child>, dir: string, excludes: set<string>)
    ensures forall p :: p in KeptAll(cs, dir, excludes) ==> |p| >= |dir|
    decreases cs, 0
  {
    if cs != [] {
      KeptBelow(cs[0].node, dir + "/" + cs[0].name, excludes);
      KeptAllBelow(cs[1..], dir, excludes);
    }
  }

  /**
   Extracting a backup gives back every kept entry's kind, contents, owner and mode & 06777, after any
   history of further backups and of gc runs that include its manifest.
   */
  lemma BackupSurvives(cs: seq<Child>, excludes: set<string>, key: Hash, store: Store, history: seq<Store>)
    requires SoundStore(store, key) && CollisionFree(key) && NamedAll(cs)
    requires forall i :: 0 <= i < |EnteredAll(cs, ".", excludes, key)| ==>
        FitsBuffers(EnteredAll(cs, ".", excludes, key)[i])
    requires var manifest := HEADER + PrintAll(EnteredAll(cs, ".", excludes, key));
      && history != [] && history[0] == StoredAll(cs, ".", excludes, key, store)
      && forall i :: 0 <= i < |history| - 1 ==> Later(manifest, history[i], history[i+1], key)
    ensures Extract(HEADER + PrintAll(EnteredAll(cs, ".", excludes, key)), history[|history|-1])
        == Some(KeptAll(cs, ".", excludes))
  {
    hide StoredAll, KeptAll, FitsBuffers, Later, ReadManifest, ReadKeys, EnteredAll, CollisionFree, NamedAll;
    hide SoundStore;
    var items := EnteredAll(cs, ".", excludes, key);
    var last := history[|history|-1];
    ManifestRoundTrip(items);
    StoredAllHolds(cs, ".", excludes, key, store);
    HistoryAvailable(HEADER + PrintAll(items), items, history, key, |history| - 1);
    ExtractAllKept(cs, ".", excludes, key, last, map[], []);
    assert items + [] == items;
    var none: Tree := map[];
    assert none + KeptAll(cs, ".", excludes) == KeptAll(cs, ".", excludes);
  }

  lemma {:induction false} HistoryAvailable(manifest: string, items: seq<Item>, history: seq<Store>, key: Hash, i: nat)
    requires i < |history| && Available(items, history[0], key) && CollisionFree(key)
    requires ReadKeys(manifest) == Refs(Keys(items))
    requires forall k :: 0 <= k < |history| - 1 ==> Later(manifest, history[k], history[k+1], key)
    ensures Available(items, history[i], key)
    decreases i
  {
    hide Available, Later, ReadKeys, CollisionFree;
    if i > 0 {
      HistoryAvailable(manifest, items, history, key, i - 1);
      assert Later(manifest, history[i-1], history[i-1+1], key);
      LaterAvailable(manifest, items, history[i-1], history[i], key);
    }
  }

  // ----- when extraction fails -----

  lemma {:induction false} AllNeedBlobs(items: seq<Item>, store: Store, t: Tree)
    requires ExtractAll(items, store, t).Some?
    ensures forall k :: k in Keys(items) ==> k in store
    decreases |items|
  {
    hide DirExists, Parent;
    if items != [] {
      AllNeedBlobs(items[1..], store, ExtractItem(items[0], store, t).value);
    }
  }

  /** Extraction succeeds only on a manifest that is not too new, with every blob that it names in the store. */
  lemma ExtractNeedsBlobs(manifest: string, store: Store)
    requires Extract(manifest, store).Some?
    ensures ReadManifest(manifest).Entries? && forall k :: k in Keys(ReadManifest(manifest).items) ==> k in store
  {
    hide ExtractAll, ReadManifest, Keys;
    AllNeedBlobs(ReadManifest(manifest).items, store, map[]);
  }

  /** A backup can be extracted from a sound store exactly if every blob that it names is there. */
  lemma ExtractExactly(cs: seq<Child>, excludes: set<string>, key: Hash, store: Store)
    requires SoundStore(store, key) && CollisionFree(key) && NamedAll(cs)
    requires forall i :: 0 <= i < |EnteredAll(cs, ".", excludes, key)| ==>
        FitsBuffers(EnteredAll(cs, ".", excludes, key)[i])
    ensures Extract(HEADER + PrintAll(EnteredAll(cs, ".", excludes, key)), store).Some? <==>
        forall k :: k in Keys(EnteredAll(cs, ".", excludes, key)) ==> k in store
  {
    hide KeptAll, FitsBuffers, ReadManifest, ReadKeys, EnteredAll, CollisionFree, NamedAll, SoundStore, ExtractAll;
    var items := EnteredAll(cs, ".", excludes, key);
    ManifestRoundTrip(items);
    if Extract(HEADER + PrintAll(items), store).Some? {
      ExtractNeedsBlobs(HEADER + PrintAll(items), store);
    }
    if forall k :: k in Keys(items) ==> k in store {
      ExtractAllKept(cs, ".", excludes, key, store, map[], []);
      assert items + [] == items;
      ExtractNothing(store, map[] + KeptAll(cs, ".", excludes));
    }
  }

  lemma ExtractNothing(store: Store, t: Tree)
    ensures ExtractAll([], store, t) == Some(t)
  {
  }
}
