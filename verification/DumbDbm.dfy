/** The database of Lib/dumbdbm.py: an index kept in memory and logged to a directory file, and a
    data file handed out in blocks. Files are byte strings, and a line of the directory file is a
    (key, position, size) record; its text form is left out. */
module DumbDbm {
  import opened Basics

  datatype Entry = Entry(key: string, pos: nat, siz: nat)

  type Index = map<string, (nat, nat)>

  const BLOCKSIZE: nat := 512

  function Blocks(siz: nat): nat {
    (siz + BLOCKSIZE - 1) / BLOCKSIZE
  }

  function Aligned(pos: nat): nat {
    Blocks(pos) * BLOCKSIZE
  }

  lemma BlocksCover(siz: nat)
    ensures siz <= Aligned(siz) < siz + BLOCKSIZE && Aligned(siz) % BLOCKSIZE == 0
  {
  }

  lemma BlocksMonotone(a: nat, b: nat)
    ensures Aligned(a) <= Aligned(b) <==> Blocks(a) <= Blocks(b)
    ensures a <= b ==> Blocks(a) <= Blocks(b)
  {
  }

  /** Reading the directory file: the last entry for a key wins. */
  function Replay(dir: seq<Entry>): Index {
    if dir == [] then map[]
    else
      var e := dir[|dir| - 1];
      Replay(dir[..|dir| - 1])[e.key := (e.pos, e.siz)]
  }

  lemma ReplayAppend(dir: seq<Entry>, e: Entry)
    ensures Replay(dir + [e]) == Replay(dir)[e.key := (e.pos, e.siz)]
  {
    assert (dir + [e])[..|dir|] == dir;
  }

  // ---------- The data file ----------

  predicate InFile(index: Index, dat: string) {
    forall k :: k in index ==> index[k].0 % BLOCKSIZE == 0 && index[k].0 + index[k].1 <= |dat|
  }

  /** The blocks of p lie before those of q. */
  predicate BlocksBefore(p: (nat, nat), q: (nat, nat)) {
    p.0 + Aligned(p.1) <= q.0
  }

  /** No two live values share a block. */
  predicate Disjoint(index: Index) {
    forall k, l :: k in index && l in index && k != l ==>
      BlocksBefore(index[k], index[l]) || BlocksBefore(index[l], index[k])
  }

  ghost predicate Sound(index: Index, dat: string) {
    InFile(index, dat) && Disjoint(index)
  }

  /** The string map that the index and the data file represent. */
  ghost function View(index: Index, dat: string): map<string, string>
    requires InFile(index, dat)
  {
    map k | k in index :: dat[index[k].0..index[k].0 + index[k].1]
  }

  /** An overwrite within the blocks of its own key leaves every other key alone. */
  lemma OverwriteIsLocal(index: Index, dat: string, key: string, val: string)
    requires Sound(index, dat) && key in index && Blocks(|val|) <= Blocks(index[key].1)
    ensures index[key].0 <= |dat|
    ensures var pos := index[key].0;
      var dat' := WriteAt(dat, pos, val);
      var index' := index[key := (pos, |val|)];
      Sound(index', dat') && View(index', dat') == View(index, dat)[key := val]
  {
    var pos := index[key].0;
    var dat' := WriteAt(dat, pos, val);
    var index' := index[key := (pos, |val|)];
    BlocksMonotone(|val|, index[key].1);
    BlocksCover(|val|);
    hide Blocks, Aligned;
    assert InFile(index', dat');
    assert Disjoint(index');
    hide Disjoint, WriteAt;
    forall k | k in index && k != key ensures Slice(dat', index[k]) == Slice(dat, index[k]) {
      OutsideBlocks(index, dat, key, k, val);
    }
    ViewUpdate(index, dat, dat', key, (pos, |val|), val);
  }

  /** The bytes that an index entry designates. */
  function Slice(dat: string, p: (nat, nat)): string {
    if p.0 + p.1 <= |dat| then dat[p.0..p.0 + p.1] else ""
  }

  lemma OutsideBlocks(index: Index, dat: string, key: string, k: string, val: string)
    requires Sound(index, dat) && key in index && k in index && k != key && Blocks(|val|) <= Blocks(index[key].1)
    ensures Slice(WriteAt(dat, index[key].0, val), index[k]) == Slice(dat, index[k])
  {
    BlocksCover(index[k].1);
    BlocksCover(|val|);
    BlocksMonotone(|val|, index[key].1);
    hide Blocks, Aligned;
    assert BlocksBefore(index[k], index[key]) || BlocksBefore(index[key], index[k]);
  }

  lemma ViewUpdate(index: Index, dat: string, dat': string, key: string, p: (nat, nat), val: string)
    requires InFile(index, dat) && InFile(index[key := p], dat')
    requires Slice(dat', p) == val
    requires forall k :: k in index && k != key ==> Slice(dat', index[k]) == Slice(dat, index[k])
    ensures View(index[key := p], dat') == View(index, dat)[key := val]
  {
    var v, w := View(index[key := p], dat'), View(index, dat)[key := val];
    assert v.Keys == w.Keys;
    forall k | k in v ensures v[k] == w[k] {
      if k != key {
        assert Slice(dat', index[k]) == Slice(dat, index[k]);
      }
    }
  }

  /** A value appended at the next block boundary takes blocks that no key owns. */
  lemma AppendIsFresh(index: Index, dat: string, pad: string, key: string, val: string)
    requires Sound(index, dat) && |dat| + |pad| == Aligned(|dat|)
    ensures var pos := Aligned(|dat|);
      var dat' := dat + pad + val;
      var index' := index[key := (pos, |val|)];
      Sound(index', dat') && View(index', dat') == View(index, dat)[key := val]
  {
    var pos := Aligned(|dat|);
    var dat' := dat + pad + val;
    var index' := index[key := (pos, |val|)];
    BlocksCover(|dat|);
    forall k | k in index ensures BlocksBefore(index[k], (pos, |val|)) && index[k].0 + index[k].1 <= pos {
      EndOfBlocks(index[k].0, index[k].1, |dat|);
      BlocksCover(index[k].1);
    }
    hide Blocks, Aligned;
    assert Disjoint(index');
    assert InFile(index', dat');
    assert Slice(dat', (pos, |val|)) == val;
    hide Disjoint, BlocksBefore;
    ViewUpdate(index, dat, dat', key, (pos, |val|), val);
  }

  lemma EndOfBlocks(pos: nat, siz: nat, n: nat)
    requires pos % BLOCKSIZE == 0 && pos + siz <= n
    ensures pos + Aligned(siz) <= Aligned(n)
  {
  }

  lemma DeleteKeeps(index: Index, dat: string, key: string)
    requires Sound(index, dat)
    ensures Sound(index - {key}, dat) && View(index - {key}, dat) == View(index, dat) - {key}
  {
    hide BlocksBefore;
    var rest := index - {key};
    assert forall k :: k in rest ==> k in index && rest[k] == index[k];
    assert Disjoint(rest);
    hide Disjoint;
    assert View(rest, dat).Keys == (View(index, dat) - {key}).Keys;
  }

  // ---------- The database object ----------

  class Database {
    var index: Index
    var dat: string
    var dir: seq<Entry>
    var bak: seq<Entry>

    ghost predicate Valid()
      reads this
    {
      Sound(index, dat) && Replay(dir) == index
    }

    ghost function Contents(): map<string, string>
      requires Valid()
      reads this
    {
      View(index, dat)
    }

    /** Opening an existing pair of files, or creating them. */
    constructor (dat: string, dir: seq<Entry>)
      ensures this.dat == dat && this.dir == dir && index == Replay(dir)
      ensures Sound(Replay(dir), dat) ==> Valid() && Contents() == View(Replay(dir), dat)
    {
      this.dat, this.dir, bak, index := dat, dir, [], map[];
      new;
      Update();
    }

    /** `_update`: rebuild the index from the directory file. */
    method Update()
      modifies this`index
      ensures index == Replay(dir)
    {
      index := map[];
      for i := 0 to |dir|
        invariant index == Replay(dir[..i])
      {
        assert dir[..i + 1][..i] == dir[..i];
        index := index[dir[i].key := (dir[i].pos, dir[i].siz)];
      }
      assert dir[..|dir|] == dir;
    }

    /** `_commit`: keep the directory file as the backup and write it anew, in whatever order the
        dictionary yields. */
    method Commit()
      modifies this`dir, this`bak
      ensures Replay(dir) == index && bak == old(dir)
    {
      bak := dir;
      dir := [];
      var keys := index.Keys;
      while keys != {}
        invariant keys <= index.Keys && bak == old(dir)
        invariant Replay(dir).Keys == index.Keys - keys
        invariant forall k :: k in Replay(dir) ==> Replay(dir)[k] == index[k]
      {
        var key :| key in keys;
        ReplayAppend(dir, Entry(key, index[key].0, index[key].1));
        dir := dir + [Entry(key, index[key].0, index[key].1)];
        keys := keys - {key};
      }
    }

    method GetItem(key: string) returns (r: Option<string>)
      requires Valid()
      ensures r == if key in Contents() then Some(Contents()[key]) else None
    {
      if key in index {
        var (pos, siz) := index[key];
        r := Some(dat[pos..pos + siz]);
      } else {
        r := None;
      }
    }

    /** `_addval`: pad the data file to a block boundary and append. */
    method AddVal(val: string) returns (pos: nat, siz: nat)
      modifies this`dat
      ensures pos == Aligned(|old(dat)|) && siz == |val|
      ensures |old(dat)| <= pos < |old(dat)| + 512 && pos % 512 == 0
      ensures dat == old(dat) + Nuls(pos - |old(dat)|) + val
    {
      BlocksCover(|dat|);
      pos := |dat|;
      var npos := (pos + BLOCKSIZE - 1) / BLOCKSIZE * BLOCKSIZE;
      dat := dat + Nuls(npos - pos);
      pos := npos;
      dat := dat + val;
      siz := |val|;
    }

    /** `_setval`: overwrite in place. */
    method SetVal(pos: nat, val: string) returns (siz: nat)
      requires pos <= |dat|
      modifies this`dat
      ensures dat == WriteAt(old(dat), pos, val) && siz == |val|
    {
      dat := WriteAt(dat, pos, val);
      siz := |val|;
    }

    /** `_addkey`: enter the key in the index and at the end of the directory file. */
    method AddKey(key: string, pos: nat, siz: nat)
      modifies this`index, this`dir
      ensures index == old(index)[key := (pos, siz)] && dir == old(dir) + [Entry(key, pos, siz)]
    {
      index := index[key := (pos, siz)];
      dir := dir + [Entry(key, pos, siz)];
    }

    method SetItem(key: string, val: string)
      requires Valid()
      modifies this
      ensures Valid() && Contents() == old(Contents())[key := val]
      ensures key in index && index == old(index)[key := index[key]] && index[key].1 == |val|
      ensures dir == old(dir) + [Entry(key, index[key].0, |val|)] && bak == old(bak)
      ensures if key in old(index) && (|val| + 511) / 512 <= (old(index)[key].1 + 511) / 512 then
                index[key].0 == old(index)[key].0 <= |old(dat)| && dat == WriteAt(old(dat), index[key].0, val)
              else
                && |old(dat)| <= index[key].0 < |old(dat)| + 512 && index[key].0 % 512 == 0
                && dat == old(dat) + Nuls(index[key].0 - |old(dat)|) + val
    {
      hide Sound, View, InFile, Aligned, Replay, WriteAt;
      var pos, siz;
      if key !in index {
        BlocksCover(|dat|);
        AppendIsFresh(index, dat, Nuls(Aligned(|dat|) - |dat|), key, val);
        pos, siz := AddVal(val);
      } else {
        pos, siz := index[key].0, index[key].1;
        var oldblocks := (siz + BLOCKSIZE - 1) / BLOCKSIZE;
        var newblocks := (|val| + BLOCKSIZE - 1) / BLOCKSIZE;
        if newblocks <= oldblocks {
          OverwriteIsLocal(index, dat, key, val);
          siz := SetVal(pos, val);
        } else {
          BlocksCover(|dat|);
          AppendIsFresh(index, dat, Nuls(Aligned(|dat|) - |dat|), key, val);
          pos, siz := AddVal(val);
        }
        index := index[key := (pos, siz)];
      }
      ReplayAppend(dir, Entry(key, pos, siz));
      ghost var once := index;
      AddKey(key, pos, siz);
      assert once[key := (pos, siz)] == old(index)[key := (pos, siz)];
    }

    /** `__delitem__`; false is KeyError. The data stays in the file but no key owns it. */
    method DelItem(key: string) returns (ok: bool)
      requires Valid()
      modifies this
      ensures Valid() && ok == (key in old(Contents()))
      ensures Contents() == old(Contents()) - {key} && dat == old(dat)
      ensures bak == if ok then old(dir) else old(bak)
    {
      ok := key in index;
      if ok {
        DeleteKeeps(index, dat, key);
        hide Sound, View, InFile;
        index := index - {key};
        Commit();
      } else {
        DeleteKeeps(index, dat, key);
        assert index - {key} == index;
      }
    }

    /** Closing and opening again gives the same map. */
    method Reopen() returns (db: Database)
      requires Valid()
      ensures fresh(db) && db.Valid() && db.Contents() == Contents() && db.index == index
    {
      db := new Database(dat, dir);
    }
  }

  // ---------- Runs ----------

  datatype Action = Set(key: string, val: string) | Delete(key: string) | CloseAndOpen

  /** What a run does to the string map. */
  function RunMap(m: map<string, string>, actions: seq<Action>): map<string, string>
    decreases |actions|
  {
    if actions == [] then m
    else
      var m1 := match actions[0]
        case Set(k, v) => m[k := v]
        case Delete(k) => m - {k}
        case CloseAndOpen => m;
      RunMap(m1, actions[1..])
  }

  /** Every run of sets, deletes and reopenings, from any sound pair of files, is a run of the map. */
  method Run(dat: string, dir: seq<Entry>, actions: seq<Action>) returns (db: Database)
    requires Sound(Replay(dir), dat)
    ensures fresh(db) && db.Valid()
    ensures db.Contents() == RunMap(View(Replay(dir), dat), actions)
  {
    ghost var start := View(Replay(dir), dat);
    hide View, Replay;
    db := new Database(dat, dir);
    assert actions[0..] == actions;
    for i := 0 to |actions|
      invariant fresh(db) && db.Valid()
      invariant RunMap(db.Contents(), actions[i..]) == RunMap(start, actions)
    {
      assert actions[i..][1..] == actions[i + 1..];
      match actions[i] {
        case Set(k, v) =>
          db.SetItem(k, v);
        case Delete(k) =>
          var _ := db.DelItem(k);
        case CloseAndOpen =>
          db := db.Reopen();
      }
    }
    assert actions[|actions|..] == [];
  }
}
