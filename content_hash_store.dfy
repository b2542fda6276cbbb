/**
 The two-level content-hash cache (semgrep/semgrep/content_hash_store.py):
 an in-memory table, patterns hash -> file hash -> contents, backed by one
 cache file per (patterns hash, file hash) that is only written by `flush`.

 The cache directory is the map `disk`.  The in-memory table is a
 `defaultdict` of `defaultdict(list)`: reading a missing outer key yields an
 empty inner table (`InnerOf`), and reading a missing inner key stores and
 yields an empty list (`Vivify`, `DefaultRead`).  Contents are lists; a list
 is truthy exactly when it is non-empty.
 */
module ContentHash {
  import opened Wrappers

  /** (patterns hash, file hash), the order in which `dirty` and the cache directory use them. */
  type Key = (string, string)

  /** `semgrep_md5_hash`: outer key, then inner key, then the stored list. */
  type Memory<T> = map<string, map<string, seq<T>>>

  function InnerOf<T>(mem: Memory<T>, outer: string): map<string, seq<T>> {
    if outer in mem then mem[outer] else map[]
  }

  /** `mem[outer][inner]` when the inner key is present. */
  function Lookup<T>(mem: Memory<T>, outer: string, inner: string): Option<seq<T>> {
    if inner in InnerOf(mem, outer) then Some(InnerOf(mem, outer)[inner]) else None
  }

  /** `mem[outer][inner] = c`. */
  function Store<T>(mem: Memory<T>, outer: string, inner: string, c: seq<T>): Memory<T> {
    mem[outer := InnerOf(mem, outer)[inner := c]]
  }

  /** Storing affects exactly the one cell it names. */
  lemma LookupStore<T>(mem: Memory<T>, outer: string, inner: string, c: seq<T>, outer': string, inner': string)
    ensures Lookup(Store(mem, outer, inner, c), outer', inner')
         == if outer' == outer && inner' == inner then Some(c) else Lookup(mem, outer', inner')
  {
  }

  /** Python truthiness of `_get`'s result: `None` and `[]` are false. */
  predicate Truthy<T>(o: Option<seq<T>>) {
    o.Some? && |o.value| > 0
  }

  /** The value `mem[outer][inner]` evaluates to: the stored list, or a new empty one. */
  function DefaultRead<T>(mem: Memory<T>, outer: string, inner: string): seq<T> {
    match Lookup(mem, outer, inner)
    case Some(c) => c
    case None => []
  }

  /** The table after evaluating `mem[outer][inner]`: a missing cell now holds `[]`. */
  function Vivify<T>(mem: Memory<T>, outer: string, inner: string): Memory<T> {
    if Lookup(mem, outer, inner).Some? then mem else Store(mem, outer, inner, [])
  }

  // ---------------------------------------------------------------------
  // flush, as written: it reads `semgrep_md5_hash[file_hash][patterns_hash]`

  /** The in-memory table after `flush` has processed the keys `dirty`. */
  function FlushedMemory<T>(mem: Memory<T>, dirty: seq<Key>): Memory<T> {
    if dirty == [] then mem
    else
      var k := dirty[|dirty| - 1];
      Vivify(FlushedMemory(mem, dirty[..|dirty| - 1]), k.1, k.0)
  }

  /** The cache directory after `flush` has processed the keys `dirty`. */
  function FlushedDisk<T>(disk: map<Key, seq<T>>, mem: Memory<T>, dirty: seq<Key>): map<Key, seq<T>> {
    if dirty == [] then disk
    else
      var k := dirty[|dirty| - 1];
      var before := dirty[..|dirty| - 1];
      FlushedDisk(disk, mem, before)[k := DefaultRead(FlushedMemory(mem, before), k.1, k.0)]
  }

  /**
   After flushing, a cell holds what it held before; a cell that was missing
   holds `[]` exactly when its swapped key was dirty, and is missing otherwise.
   */
  lemma {:induction false} FlushedMemoryLookup<T>(mem: Memory<T>, dirty: seq<Key>, outer: string, inner: string)
    ensures Lookup(FlushedMemory(mem, dirty), outer, inner)
         == if Lookup(mem, outer, inner).Some? then Lookup(mem, outer, inner)
            else if (inner, outer) in dirty then Some([])
            else None
  {
    if dirty != [] {
      var before := dirty[..|dirty| - 1];
      var k := dirty[|dirty| - 1];
      FlushedMemoryLookup(mem, before, outer, inner);
      LookupStore(FlushedMemory(mem, before), k.1, k.0, [], outer, inner);
      assert dirty == before + [k];
    }
  }

  /** Vivified cells read as `[]`, which is what a missing cell reads as anyway. */
  lemma FlushedMemoryDefaultRead<T>(mem: Memory<T>, dirty: seq<Key>, outer: string, inner: string)
    ensures DefaultRead(FlushedMemory(mem, dirty), outer, inner) == DefaultRead(mem, outer, inner)
  {
    FlushedMemoryLookup(mem, dirty, outer, inner);
  }

  /**
   `flush` writes a file for each dirty key and for no other key; the file
   for `(p, f)` holds the swapped in-memory cell `[f][p]` (`[]` if that cell
   is missing), and every other file is left as it was.
   */
  lemma {:induction false} FlushedDiskSpec<T>(disk: map<Key, seq<T>>, mem: Memory<T>, dirty: seq<Key>, k: Key)
    ensures k in dirty ==> k in FlushedDisk(disk, mem, dirty) && FlushedDisk(disk, mem, dirty)[k] == DefaultRead(mem, k.1, k.0)
    ensures k !in dirty ==> (k in FlushedDisk(disk, mem, dirty) <==> k in disk)
    ensures k !in dirty && k in disk ==> FlushedDisk(disk, mem, dirty)[k] == disk[k]
  {
    if dirty != [] {
      var before := dirty[..|dirty| - 1];
      var last := dirty[|dirty| - 1];
      assert dirty == before + [last];
      FlushedDiskSpec(disk, mem, before, k);
      FlushedMemoryDefaultRead(mem, before, last.1, last.0);
    }
  }

  /** The keys of the cache directory after `flush`: the old ones and the dirty ones. */
  lemma FlushedDiskKeys<T>(disk: map<Key, seq<T>>, mem: Memory<T>, dirty: seq<Key>)
    ensures FlushedDisk(disk, mem, dirty).Keys == disk.Keys + set k | k in dirty
  {
    forall k ensures k in FlushedDisk(disk, mem, dirty) <==> k in disk || k in dirty {
      FlushedDiskSpec(disk, mem, dirty, k);
    }
  }

  // ---------------------------------------------------------------------
  // flush, as evidently intended: it reads `semgrep_md5_hash[patterns_hash][file_hash]`

  function IntendedFlushedDisk<T>(disk: map<Key, seq<T>>, mem: Memory<T>, dirty: seq<Key>): map<Key, seq<T>> {
    if dirty == [] then disk
    else
      var k := dirty[|dirty| - 1];
      IntendedFlushedDisk(disk, mem, dirty[..|dirty| - 1])[k := DefaultRead(mem, k.0, k.1)]
  }

  /** The intended flush persists every saved entry: each dirty key's file holds its cached contents. */
  lemma {:induction false} IntendedFlushPersists<T>(disk: map<Key, seq<T>>, mem: Memory<T>, dirty: seq<Key>, k: Key)
    requires forall d :: d in dirty ==> Lookup(mem, d.0, d.1).Some?
    ensures k in dirty ==>
      k in IntendedFlushedDisk(disk, mem, dirty) && Some(IntendedFlushedDisk(disk, mem, dirty)[k]) == Lookup(mem, k.0, k.1)
    ensures k !in dirty ==> (k in IntendedFlushedDisk(disk, mem, dirty) <==> k in disk)
    ensures k !in dirty && k in disk ==> IntendedFlushedDisk(disk, mem, dirty)[k] == disk[k]
  {
    if dirty != [] {
      var before := dirty[..|dirty| - 1];
      assert dirty == before + [dirty[|dirty| - 1]];
      IntendedFlushPersists(disk, mem, before, k);
    }
  }

  /**
   The source's flush loses a saved entry: after `save_entry("f", "p", [x])`
   and `flush()`, the file for ("p", "f") holds `[]`, not `[x]`.
   */
  lemma SwappedFlushLosesEntry<T>(x: T)
    ensures var mem := Store(map[], "p", "f", [x]);
            && FlushedDisk(map[], mem, [("p", "f")])[("p", "f")] == []
            && IntendedFlushedDisk(map[], mem, [("p", "f")])[("p", "f")] == [x]
  {
    var mem: Memory<T> := Store(map[], "p", "f", [x]);
    assert [("p", "f")][..0] == [];
    assert Lookup(mem, "f", "p") == None by {
      assert "f" !in mem;
    }
  }

  // ---------------------------------------------------------------------
  // The stateful object

  class ContentHashStore<T> {
    /** `semgrep_md5_hash`. */
    var memory: Memory<T>
    /** Keys saved since the last flush, oldest first. */
    var dirty: seq<Key>
    /** The cache files under the cache directory, keyed by (patterns hash, file hash). */
    var disk: map<Key, seq<T>>

    /**
     Every key saved since the last flush is still cached in memory.  Every
     operation keeps this; it is what lets a flush that reads the right cell
     write back each saved list (`IntendedFlushOfStore`), with no key falling
     back to the default `[]`.
     */
    ghost predicate Valid()
      reads this
    {
      forall k :: k in dirty ==> Lookup(memory, k.0, k.1).Some?
    }

    /** A new store over a cache directory that already holds `files`. */
    constructor (files: map<Key, seq<T>>)
      ensures Valid()
      ensures memory == map[] && dirty == [] && disk == files
    {
      memory := map[];
      dirty := [];
      disk := files;
    }

    /** `contains(file_hash, patterns_hash)`. */
    function Contains(fileHash: string, patternsHash: string): (r: bool)
      reads this
      ensures r <==> patternsHash in memory && fileHash in memory[patternsHash]
    {
      fileHash in InnerOf(memory, patternsHash)
    }

    /** `_get(file_hash, patterns_hash)`. */
    function Get(fileHash: string, patternsHash: string): (r: Option<seq<T>>)
      reads this
      ensures r.Some? <==> Contains(fileHash, patternsHash)
      ensures Contains(fileHash, patternsHash) ==> r == Some(memory[patternsHash][fileHash])
    {
      if Contains(fileHash, patternsHash) then Some(memory[patternsHash][fileHash]) else None
    }

    /** `save_entry(file_hash, patterns_hash, contents)`. */
    method SaveEntry(fileHash: string, patternsHash: string, contents: seq<T>)
      requires Valid()
      modifies this
      ensures Valid()
      ensures memory == Store(old(memory), patternsHash, fileHash, contents)
      ensures dirty == old(dirty) + [(patternsHash, fileHash)]
      ensures disk == old(disk)
      ensures Contains(fileHash, patternsHash) && Get(fileHash, patternsHash) == Some(contents)
      ensures forall p, f :: (p, f) != (patternsHash, fileHash) ==> Lookup(memory, p, f) == Lookup(old(memory), p, f)
    {
      memory := Store(memory, patternsHash, fileHash, contents);
      dirty := dirty + [(patternsHash, fileHash)];
      forall k | k in old(dirty) ensures Lookup(memory, k.0, k.1).Some? {
        LookupStore(old(memory), patternsHash, fileHash, contents, k.0, k.1);
      }
    }

    /**
     `load_entry(file_hash, patterns_hash)`: a truthy in-memory value is
     returned as is; otherwise a cache file, if there is one, is loaded into
     memory and returned; otherwise whatever `_get` gives (`None`, or a falsy
     `[]`) is returned.
     */
    method LoadEntry(fileHash: string, patternsHash: string) returns (r: Option<seq<T>>)
      requires Valid()
      modifies this
      ensures Valid()
      ensures dirty == old(dirty) && disk == old(disk)
      ensures Truthy(old(Get(fileHash, patternsHash))) ==>
        r == old(Get(fileHash, patternsHash)) && memory == old(memory)
      ensures !Truthy(old(Get(fileHash, patternsHash))) && (patternsHash, fileHash) in disk ==>
        && memory == Store(old(memory), patternsHash, fileHash, disk[(patternsHash, fileHash)])
        && r == Some(disk[(patternsHash, fileHash)])
      ensures !Truthy(old(Get(fileHash, patternsHash))) && (patternsHash, fileHash) !in disk ==>
        r == old(Get(fileHash, patternsHash)) && memory == old(memory)
      ensures !old(Contains(fileHash, patternsHash)) && (patternsHash, fileHash) !in disk ==>
        r == None && !Contains(fileHash, patternsHash)
    {
      var inMemory := Get(fileHash, patternsHash);
      if Truthy(inMemory) {
        return inMemory;
      }
      if (patternsHash, fileHash) in disk {
        memory := Store(memory, patternsHash, fileHash, disk[(patternsHash, fileHash)]);
        forall k | k in dirty ensures Lookup(memory, k.0, k.1).Some? {
          LookupStore(old(memory), patternsHash, fileHash, old(disk)[(patternsHash, fileHash)], k.0, k.1);
        }
      }
      r := Get(fileHash, patternsHash);
    }

    /**
     `flush()`: writes one cache file per dirty key, taking its contents from
     the swapped cell `semgrep_md5_hash[file_hash][patterns_hash]` (which the
     read creates as `[]` when missing), then empties `dirty`.
     */
    method Flush()
      requires Valid()
      modifies this
      ensures Valid()
      ensures dirty == []
      ensures disk == FlushedDisk(old(disk), old(memory), old(dirty))
      ensures memory == FlushedMemory(old(memory), old(dirty))
      ensures forall p, f :: Lookup(old(memory), p, f).Some? ==> Lookup(memory, p, f) == Lookup(old(memory), p, f)
    {
      var pending := dirty;
      for i := 0 to |pending|
        invariant memory == FlushedMemory(old(memory), pending[..i])
        invariant disk == FlushedDisk(old(disk), old(memory), pending[..i])
      {
        var (patternsHash, fileHash) := pending[i];
        assert pending[..i + 1][..i] == pending[..i];
        var contents := DefaultRead(memory, fileHash, patternsHash);
        memory := Vivify(memory, fileHash, patternsHash);
        disk := disk[(patternsHash, fileHash) := contents];
      }
      assert pending[..|pending|] == pending;
      dirty := [];
      forall p, f | Lookup(old(memory), p, f).Some? ensures Lookup(memory, p, f) == Lookup(old(memory), p, f) {
        FlushedMemoryLookup(old(memory), pending, p, f);
      }
    }
  }

  /**
   For a store in its invariant, the intended flush writes each dirty key's
   file with exactly the list `_get` returns for that key, and no other file.
   */
  lemma IntendedFlushOfStore<T>(store: ContentHashStore<T>, k: Key)
    requires store.Valid()
    ensures k in store.dirty ==>
      && k in IntendedFlushedDisk(store.disk, store.memory, store.dirty)
      && Some(IntendedFlushedDisk(store.disk, store.memory, store.dirty)[k]) == store.Get(k.1, k.0)
    ensures k !in store.dirty ==>
      (k in IntendedFlushedDisk(store.disk, store.memory, store.dirty) <==> k in store.disk)
  {
    IntendedFlushPersists(store.disk, store.memory, store.dirty, k);
  }
}
