/** The table of loaded images and the table of mount points: choosing an index, loading, mounting. */
module MemfsTable {
  import opened Inodes
  import opened Resolver

  /** A loaded image: what it was made from and the root inode it was given. */
  datatype LoadedImage = LoadedImage(data: string, root: nat)

  type Entries = map<nat, LoadedImage>

  /** The first index from `i` on, up to the last one, that is not taken; 0 if there is none. */
  function FirstFree(keys: set<nat>, i: nat): nat
    decreases LAST_INDEX + 1 - i
  {
    if i > LAST_INDEX then 0 else if i !in keys then i else FirstFree(keys, i + 1)
  }

  predicate IsFull(keys: set<nat>) {
    forall i | 1 <= i <= LAST_INDEX :: i in keys
  }

  lemma {:induction false} FirstFreeIs(keys: set<nat>, i: nat)
    requires 1 <= i <= LAST_INDEX + 1
    ensures var r := FirstFree(keys, i);
            if r == 0 then forall j | i <= j <= LAST_INDEX :: j in keys
            else i <= r <= LAST_INDEX && r !in keys && forall j | i <= j < r :: j in keys
    decreases LAST_INDEX + 1 - i
  {
    if i > LAST_INDEX || i !in keys {
    } else {
      FirstFreeIs(keys, i + 1);
    }
  }

  /** The table after `insert_auto`. */
  function Inserted(entries: Entries, data: string): Entries {
    var r := FirstFree(entries.Keys, 1);
    if r == 0 then entries else entries[r := LoadedImage(data, RootInode(COMPILED, r))]
  }

  /** The table after `load_memfs`, and its result; `loads` says which images can be loaded. */
  function Loaded(entries: Entries, data: string, loads: string -> bool): (Entries, int) {
    var r := FirstFree(entries.Keys, 1);
    var t := Inserted(entries, data);
    if r in t && !loads(t[r].data) then (t - {r}, -1) else (t, r)
  }

  /** While an index is free, the smallest one is taken if the image loads; in a full table nothing changes, but that
      the root image goes if it does not load again. */
  lemma LoadedIs(entries: Entries, data: string, loads: string -> bool)
    ensures var (t, index) := Loaded(entries, data, loads);
            && ((exists j | 1 <= j <= 7 :: j !in entries) ==>
                  && (loads(data) ==>
                        && 1 <= index <= 7 && index !in entries && (forall j | 1 <= j < index :: j in entries)
                        && t == entries[index := LoadedImage(data, (index % 2) * 0x8000_0000)])
                  && (!loads(data) ==> index == -1 && t == entries))
            && ((forall j | 1 <= j <= 7 :: j in entries) ==>
                  if 0 in entries && !loads(entries[0].data) then index == -1 && t == entries - {0}
                  else index == 0 && t == entries)
  {
    hide FirstFree, RootInode;
    FirstFreeIs(entries.Keys, 1);
    var r := FirstFree(entries.Keys, 1);
    CompiledLayoutFits(r);
    if r != 0 {
      assert entries[r := LoadedImage(data, RootInode(COMPILED, r))] - {r} == entries;
    }
  }

  function LoadedAll(entries: Entries, data: seq<string>, loads: string -> bool): Entries
    decreases |data|
  {
    if data == [] then entries else LoadedAll(Loaded(entries, data[0], loads).0, data[1..], loads)
  }

  /** The table never fills up while the images are loaded one after the other. */
  predicate StaysFree(entries: Entries, data: seq<string>, loads: string -> bool)
    decreases |data|
  {
    !IsFull(entries.Keys) && (data != [] ==> StaysFree(Loaded(entries, data[0], loads).0, data[1..], loads))
  }

  function Loadable(data: seq<string>, loads: string -> bool): seq<string> {
    if data == [] then [] else (if loads(data[0]) then [data[0]] else []) + Loadable(data[1..], loads)
  }

  /** A failed load undoes its insertion exactly when an index was free. In a full table it is the root
      image that is loaded again under index 0, and erased if that fails. */
  lemma FailedLoadRestoresIff(entries: Entries, data: string, loads: string -> bool)
    requires Loaded(entries, data, loads).1 == -1
    ensures Loaded(entries, data, loads).0 == entries <==> !IsFull(entries.Keys)
    ensures IsFull(entries.Keys) ==> 0 in entries && Loaded(entries, data, loads).0 == entries - {0}
  {
    hide FirstFree, RootInode;
    FirstFreeIs(entries.Keys, 1);
    var r := FirstFree(entries.Keys, 1);
    if r == 0 {
      assert 0 !in entries - {0};
    } else {
      assert Inserted(entries, data) - {r} == entries;
    }
  }

  /** So a whole history of loads leaves what the loadable images alone would have left, as long as the
      table does not fill up. */
  lemma {:induction false} FailedLoadsLeaveNoTrace(entries: Entries, data: seq<string>, loads: string -> bool)
    requires StaysFree(entries, data, loads)
    ensures LoadedAll(entries, data, loads) == LoadedAll(entries, Loadable(data, loads), loads)
    decreases |data|
  {
    if data == [] {
    } else {
      var next := Loaded(entries, data[0], loads);
      FirstFreeIs(entries.Keys, 1);
      FailedLoadsLeaveNoTrace(next.0, data[1..], loads);
      if loads(data[0]) {
        assert Loadable(data, loads)[1..] == Loadable(data[1..], loads);
      } else {
        FailedLoadRestoresIff(entries, data[0], loads);
        assert Loadable(data, loads) == Loadable(data[1..], loads);
      }
    }
  }

  /** Every image has the root inode that goes with its index. */
  predicate AreRooted(entries: Entries) {
    forall k | k in entries :: entries[k].root == RootInode(COMPILED, k)
  }

  /** Whatever is loaded and fails to load, the root inodes follow the indices; with the compiled-in layout
      later calls on them reach the image just for the indices 0 and 1. */
  lemma {:induction false} RootsFollowIndices(entries: Entries, data: seq<string>, loads: string -> bool)
    requires AreRooted(entries)
    ensures var t := LoadedAll(entries, data, loads);
            AreRooted(t) && forall k | k in t :: FsIndex(COMPILED, t[k].root) == k <==> k <= 1
    decreases |data|
  {
    hide FirstFree, RootInode, FsIndex;
    if data == [] {
      forall k | k in entries
        ensures FsIndex(COMPILED, entries[k].root) == k <==> k <= 1
      {
        RootRoutesIff(COMPILED, k);
        CompiledLayoutFits(k);
      }
    } else {
      RootsFollowIndices(Loaded(entries, data[0], loads).0, data[1..], loads);
    }
  }

  lemma {:induction false} LeastExists(s: set<nat>) returns (m: nat)
    requires s != {}
    ensures m in s && forall j | j in s :: m <= j
    decreases s
  {
    var x :| x in s;
    var lower := set j | j in s && j < x;
    assert x in s && x !in lower;
    m := x;
    if lower != {} {
      m := LeastExists(lower);
      assert m in lower;
    }
    forall j | j in s
      ensures m <= j
    {
      if j < x {
        assert j in lower;
      }
    }
  }

  class Tables {
    var entries: Entries
    var mounts: map<(nat, string), Target>

    constructor ()
      ensures entries == map[] && mounts == map[]
    {
      entries, mounts := map[], map[];
    }

    /** `insert_auto`: one pass over the keys in ascending order. */
    method InsertAuto(data: string) returns (index: nat)
      modifies this`entries
      ensures index == FirstFree(old(entries).Keys, 1)
      ensures entries == Inserted(old(entries), data)
      ensures index == 0 ==> entries == old(entries) && forall j | 1 <= j <= 7 :: j in old(entries)
      ensures index != 0 ==>
                && 1 <= index <= 7 && index !in old(entries) && (forall j | 1 <= j < index :: j in old(entries))
                && entries == old(entries)[index := LoadedImage(data, (index % 2) * 0x8000_0000)]
    {
      index := 1;
      var todo := entries.Keys;
      while todo != {}
        invariant todo <= entries.Keys && index >= 1 && entries == old(entries)
        invariant forall j | 1 <= j < index :: j in entries
        invariant forall j | j in entries && j !in todo :: j < index
        decreases todo
      {
        ghost var least := LeastExists(todo);
        var key :| key in todo && forall j | j in todo :: key <= j;
        if key > index {
          break;
        } else if key == index {
          index := index + 1;
        }
        todo := todo - {key};
      }
      assert index !in entries;
      FirstFreeIs(entries.Keys, 1);
      if index > LAST_INDEX {
        return 0;
      }
      CompiledLayoutFits(index);
      hide RootInode;
      entries := entries[index := LoadedImage(data, RootInode(COMPILED, index))];
    }

    /** `load_memfs` */
    method LoadMemfs(data: string, loads: string -> bool) returns (index: int)
      modifies this`entries
      ensures (entries, index) == Loaded(old(entries), data, loads)
      ensures (exists j | 1 <= j <= 7 :: j !in old(entries)) ==>
                && (loads(data) ==>
                      && 1 <= index <= 7 && index !in old(entries) && (forall j | 1 <= j < index :: j in old(entries))
                      && entries == old(entries)[index := LoadedImage(data, (index % 2) * 0x8000_0000)])
                && (!loads(data) ==> index == -1 && entries == old(entries))
      ensures (forall j | 1 <= j <= 7 :: j in old(entries)) ==>
                if 0 in old(entries) && !loads(old(entries)[0].data) then index == -1 && entries == old(entries) - {0}
                else index == 0 && entries == old(entries)
    {
      LoadedIs(entries, data, loads);
      hide FirstFree, RootInode;
      index := InsertAuto(data);
      if index in entries && !loads(entries[index].data) {
        entries := entries - {index};
        index := -1;
      }
    }

    /** `mount_memfs`: a mount point that exists already is never replaced. */
    method MountMemfs(data: string, loads: string -> bool, parent: nat, folder: string) returns (r: int)
      modifies this
      ensures var (t, index) := Loaded(old(entries), data, loads);
              var isNew := (parent, folder) !in old(mounts);
              && entries == t
              && mounts == (if index != -1 && isNew then old(mounts)[(parent, folder) := Target.Memfs(index)] else old(mounts))
              && r == if index != -1 && isNew then index else -1
    {
      var index := LoadMemfs(data, loads);
      r := -1;
      if index != -1 && (parent, folder) !in mounts {
        mounts := mounts[(parent, folder) := Target.Memfs(index)];
        r := index;
      }
    }

    /** `clear` of the table of mount points */
    method ClearMounts()
      modifies this`mounts
      ensures mounts == map[]
    {
      mounts := map[];
    }

    /** `clear` of the table of images */
    method Clear()
      modifies this`entries
      ensures entries == map[]
    {
      entries := map[];
    }
  }
}
