/** The snapshot store: metadata in a key-ordered database, chunks in files. */
module SnapshotStore {
  import opened Words
  import opened Lex
  import opened SnapshotKeys

  datatype Snapshot = Snapshot(height: Uint64, format: Uint32, chunks: Uint32, hash: Bytes, chunkHashes: seq<Bytes>)

  /** Where a chunk is kept: height, format and chunk index. */
  datatype ChunkFile = ChunkFile(height: Uint64, format: Uint32, index: Uint32)

  type Database = map<Bytes, Snapshot>

  function KeyOf(s: Snapshot): Bytes {
    EncodeKey(s.height, s.format)
  }

  /** Every record sits under its own key. */
  ghost predicate Indexed(db: Database) {
    forall k :: k in db ==> KeyOf(db[k]) == k
  }

  /** The largest key there is: the exclusive end of every iteration, hence never visited. */
  function EndKey(): Bytes {
    EncodeKey(TWO64 - 1, TWO32 - 1)
  }

  predicate Visible(k: Bytes) {
    !LexLess(k, EncodeKey(0, 0)) && LexLess(k, EndKey())
  }

  lemma {:induction false} VisibleUnlessLast(s: Snapshot)
    ensures Visible(KeyOf(s)) <==> !(s.height == TWO64 - 1 && s.format == TWO32 - 1)
  {
    KeyOrder(s.height, s.format, 0, 0);
    KeyOrder(s.height, s.format, TWO64 - 1, TWO32 - 1);
  }

  ghost predicate Descending(it: seq<Bytes>) {
    forall i, j :: 0 <= i < j < |it| ==> LexLess(it[j], it[i])
  }

  method Greatest(keys: set<Bytes>) returns (m: Bytes)
    requires keys != {}
    ensures m in keys && forall k :: k in keys && k != m ==> LexLess(k, m)
  {
    m :| m in keys;
    var todo := keys - {m};
    while todo != {}
      invariant m in keys && m !in todo && todo <= keys
      invariant forall k :: k in keys && k !in todo && k != m ==> LexLess(k, m)
      decreases todo
    {
      var k :| k in todo;
      LexTotal(k, m);
      if LexLess(m, k) {
        forall x | x in keys && x !in todo && x != m {
          LexTransitive(x, m, k);
        }
        m := k;
      }
      todo := todo - {k};
    }
  }

  /** `ReverseIterator` over the whole key range: visible keys, greatest first. */
  method ReverseIterator(db: Database) returns (it: seq<Bytes>)
    ensures Descending(it)
    ensures forall k :: k in it <==> k in db && Visible(k)
  {
    it := [];
    var todo := set k | k in db.Keys && Visible(k);
    while todo != {}
      invariant Descending(it)
      invariant forall k :: k in it || k in todo <==> k in db && Visible(k)
      invariant forall k, i :: k in todo && 0 <= i < |it| ==> LexLess(k, it[i])
      decreases todo
    {
      var m := Greatest(todo);
      it := it + [m];
      todo := todo - {m};
    }
  }

  // ---- Which heights are kept ----

  ghost function Heights(db: Database): set<Uint64> {
    set k | k in db && Visible(k) :: db[k].height
  }

  /** How many distinct visible heights are above `h`. */
  ghost function Rank(db: Database, h: Uint64): nat {
    |set g | g in Heights(db) && g > h|
  }

  /** A set of heights that begins the descending list of all of them, `retain` long or complete. */
  ghost predicate Newest(skip: set<Uint64>, all: set<Uint64>, retain: nat) {
    && skip <= all && |skip| <= retain
    && (skip == all || |skip| == retain)
    && forall g, h :: g in skip && h in all - skip ==> h < g
  }

  lemma {:induction false} SubsetSize<T>(a: set<T>, b: set<T>)
    requires a <= b
    ensures |a| <= |b|
  {
    assert b == a + (b - a);
  }

  /** Being among the newest is having fewer than `retain` heights above. */
  lemma {:induction false} NewestIsRank(skip: set<Uint64>, db: Database, retain: nat, h: Uint64)
    requires Newest(skip, Heights(db), retain) && h in Heights(db)
    ensures h in skip <==> Rank(db, h) < retain
  {
    var above := set g | g in Heights(db) && g > h;
    if h in skip {
      forall g | g in above
        ensures g in skip - {h}
      {
        assert g !in Heights(db) - skip;
      }
      SubsetSize(above, skip - {h});
    } else {
      assert h in Heights(db) - skip;
      forall g | g in skip
        ensures g in above
      {
      }
      SubsetSize(skip, above);
    }
  }

  // ---- Directories ----

  /** The directories of the heights, each with its format directories. */
  type Directories = map<Uint64, set<Uint32>>

  /** `MkdirAll` of a snapshot's directory. */
  function MakeDir(dirs: Directories, height: Uint64, format: Uint32): Directories {
    dirs[height := (if height in dirs then dirs[height] else {}) + {format}]
  }

  lemma {:induction false} MakeDirTwice(dirs: Directories, height: Uint64, format: Uint32)
    ensures MakeDir(MakeDir(dirs, height, format), height, format) == MakeDir(dirs, height, format)
  {
    var once := MakeDir(dirs, height, format);
    assert once[height] + {format} == once[height];
  }

  /** `RemoveAll` of a snapshot's directory: that of its height stays. */
  function RemoveDir(dirs: Directories, height: Uint64, format: Uint32): Directories {
    map h | h in dirs :: if h == height then dirs[h] - {format} else dirs[h]
  }

  /** The directories after the records of `was` that are not in `now` have been deleted. */
  ghost function DirsLeft(dirs: Directories, was: Database, now: Database): Directories {
    map h | h in dirs :: set f | f in dirs[h] && (EncodeKey(h, f) in was ==> EncodeKey(h, f) in now)
  }

  /** The chunk files then. */
  ghost function FilesLeft(files: map<ChunkFile, Bytes>, was: Database, now: Database): map<ChunkFile, Bytes> {
    map f | f in files && (EncodeKey(f.height, f.format) in was ==> EncodeKey(f.height, f.format) in now) :: files[f]
  }

  /** The heights that have lost a record. */
  ghost function Gone(was: Database, now: Database): set<Uint64> {
    set k | k in was && k !in now :: was[k].height
  }

  lemma {:induction false} KeyInjective(h: Uint64, f: Uint32, h': Uint64, f': Uint32)
    ensures EncodeKey(h, f) == EncodeKey(h', f') <==> h == h' && f == f'
  {
    KeyRoundTrip(h, f);
    KeyRoundTrip(h', f');
  }

  lemma {:induction false} DeleteLeavesDirs(dirs: Directories, was: Database, now: Database, h: Uint64, f: Uint32)
    requires EncodeKey(h, f) in was
    ensures RemoveDir(DirsLeft(dirs, was, now), h, f) == DirsLeft(dirs, was, now - {EncodeKey(h, f)})
  {
    var x, y := RemoveDir(DirsLeft(dirs, was, now), h, f), DirsLeft(dirs, was, now - {EncodeKey(h, f)});
    forall g | g in dirs
      ensures x[g] == y[g]
    {
      forall e
        ensures e in x[g] <==> e in y[g]
      {
        KeyInjective(h, f, g, e);
      }
    }
  }

  lemma {:induction false} DeleteLeavesFiles(
      files: map<ChunkFile, Bytes>, was: Database, now: Database, h: Uint64, f: Uint32)
    requires EncodeKey(h, f) in was
    ensures var left := FilesLeft(files, was, now);
            (map x | x in left && !(x.height == h && x.format == f) :: left[x])
            == FilesLeft(files, was, now - {EncodeKey(h, f)})
  {
    forall x: ChunkFile
      ensures EncodeKey(h, f) == EncodeKey(x.height, x.format) <==> h == x.height && f == x.format
    {
      KeyInjective(h, f, x.height, x.format);
    }
  }

  /** Disk and heights in step with the records deleted so far. */
  ghost predicate Cleared(was: Database, now: Database, d0: Directories, dirs: Directories,
                          f0: map<ChunkFile, Bytes>, files: map<ChunkFile, Bytes>, heights: set<Uint64>)
  {
    heights == Gone(was, now) && dirs == DirsLeft(d0, was, now) && files == FilesLeft(f0, was, now)
  }

  lemma {:induction false} ClearedMore(
      was: Database, now: Database, d0: Directories, dirs: Directories, f0: map<ChunkFile, Bytes>,
      files: map<ChunkFile, Bytes>, heights: set<Uint64>, h: Uint64, f: Uint32)
    requires Cleared(was, now, d0, dirs, f0, files, heights)
    requires EncodeKey(h, f) in was && was[EncodeKey(h, f)].height == h
    ensures Cleared(was, now - {EncodeKey(h, f)}, d0, RemoveDir(dirs, h, f), f0,
                    map x | x in files && !(x.height == h && x.format == f) :: files[x], heights + {h})
  {
    DeleteLeavesDirs(d0, was, now, h, f);
    DeleteLeavesFiles(f0, was, now, h, f);
    GoneMore(was, now, EncodeKey(h, f));
  }

  /** The heights below the `retain` newest. */
  ghost function PrunedHeights(db: Database, retain: nat): set<Uint64> {
    set h | h in Heights(db) && Rank(db, h) >= retain
  }

  /** Each pruned height has a directory that holds nothing but formats to prune. */
  ghost predicate Clearable(db: Database, dirs: Directories, retain: nat) {
    forall h :: h in PrunedHeights(db, retain) ==>
      h in dirs && forall f :: f in dirs[h] ==> EncodeKey(h, f) in db && EncodeKey(h, f) !in Retained(db, retain)
  }

  lemma {:induction false} GoneIsPruned(db: Database, retain: nat)
    ensures Gone(db, Retained(db, retain)) == PrunedHeights(db, retain)
  {
    var now := Retained(db, retain);
    forall h
      ensures h in Gone(db, now) <==> h in PrunedHeights(db, retain)
    {
      if h in PrunedHeights(db, retain) {
        var k :| k in db && Visible(k) && db[k].height == h;
        assert k !in now;
      }
    }
  }

  /** The directories of the pruned heights are removable exactly when they are there and empty by then. */
  lemma {:induction false} ClearableExactly(db: Database, dirs: Directories, retain: nat)
    ensures var left := DirsLeft(dirs, db, Retained(db, retain));
            Clearable(db, dirs, retain) <==> forall h :: h in PrunedHeights(db, retain) ==> h in left && left[h] == {}
  {
    var now := Retained(db, retain);
    var left := DirsLeft(dirs, db, now);
    forall h | h in dirs
      ensures left[h] == {} <==> forall f :: f in dirs[h] ==> EncodeKey(h, f) in db && EncodeKey(h, f) !in now
    {
      if left[h] == {} {
        forall f | f in dirs[h]
          ensures EncodeKey(h, f) in db && EncodeKey(h, f) !in now
        {
          assert f !in left[h];
        }
      }
    }
  }

  /** A key that is deleted although `retain` heights are spared has a pruned height. */
  lemma {:induction false} DeletedIsPruned(db: Database, it: seq<Bytes>, i: nat, skip: set<Uint64>, retain: nat)
    requires Indexed(db) && Descending(it) && i < |it|
    requires forall k :: k in it <==> k in db && Visible(k)
    requires skip <= HeightsOf(db, it[..i]) && db[it[i]].height !in skip && |skip| >= retain
    ensures db[it[i]].height in PrunedHeights(db, retain)
  {
    assert it[i] in it;
    VisitedAreNewer(db, it, i);
    VisitedHeights(db, it, i);
    CrowdedOut(db, skip, HeightsOf(db, it[..i]), db[it[i]].height, retain);
  }

  /** A height below `retain` others is pruned. */
  lemma {:induction false} CrowdedOut(db: Database, skip: set<Uint64>, passed: set<Uint64>, h: Uint64, retain: nat)
    requires skip <= passed <= Heights(db) && h in Heights(db) && h !in skip && |skip| >= retain
    requires forall g :: g in passed ==> g >= h
    ensures h in PrunedHeights(db, retain)
  {
    RankAtLeast(db, skip, h);
  }

  lemma {:induction false} VisitedHeights(db: Database, it: seq<Bytes>, i: nat)
    requires i < |it| && forall k :: k in it <==> k in db && Visible(k)
    ensures it[i] in db && db[it[i]].height in Heights(db)
    ensures HeightsOf(db, it[..i]) <= Heights(db)
  {
    assert it[i] in it;
    forall k | k in it[..i]
      ensures k in it
    {
    }
  }

  lemma {:induction false} RankAtLeast(db: Database, skip: set<Uint64>, h: Uint64)
    requires forall g :: g in skip ==> g in Heights(db) && g > h
    ensures Rank(db, h) >= |skip|
  {
    SubsetSize(skip, set g | g in Heights(db) && g > h);
  }

  // ---- The store ----

  datatype SaveError = ZeroHeight | AlreadySaving | AlreadyExists

  /** The metadata of a snapshot made of these chunks. */
  predicate Describes(hash: Bytes -> Bytes, s: Snapshot, chunks: seq<Bytes>) {
    && s.chunks == |chunks| % TWO32
    && s.hash == hash(Flatten(chunks))
    && |s.chunkHashes| == |chunks|
    && forall i :: 0 <= i < |chunks| ==> s.chunkHashes[i] == hash(chunks[i])
  }

  /** Each chunk is in the file of its index, which has 32 bits: only the last 2^32 chunks are not overwritten. */
  predicate Stored(files: map<ChunkFile, Bytes>, height: Uint64, format: Uint32, chunks: seq<Bytes>) {
    forall i :: 0 <= i < |chunks| && |chunks| <= i + TWO32 ==>
      var f := ChunkFile(height, format, i % TWO32);
      f in files && files[f] == chunks[i]
  }

  /** The hashes and the bytes of the first `i` chunks. */
  predicate Digested(hash: Bytes -> Bytes, chunks: seq<Bytes>, i: nat, hashes: seq<Bytes>, all: Bytes) {
    && i <= |chunks| && |hashes| == i && all == Flatten(chunks[..i])
    && forall j :: 0 <= j < i ==> hashes[j] == hash(chunks[j])
  }

  lemma {:induction false} DigestedMore(
      hash: Bytes -> Bytes, chunks: seq<Bytes>, i: nat, hashes: seq<Bytes>, all: Bytes)
    requires Digested(hash, chunks, i, hashes, all) && i < |chunks|
    ensures Digested(hash, chunks, i + 1, hashes + [hash(chunks[i])], all + chunks[i])
  {
    FlattenSnoc(chunks[..i], chunks[i]);
    assert chunks[..i] + [chunks[i]] == chunks[..i + 1];
  }

  lemma {:induction false} StoredMore(
      files: map<ChunkFile, Bytes>, height: Uint64, format: Uint32, chunks: seq<Bytes>, i: nat)
    requires i < |chunks| && Stored(files, height, format, chunks[..i])
    ensures Stored(files[ChunkFile(height, format, i % TWO32) := chunks[i]], height, format, chunks[..i + 1])
  {
    forall j | 0 <= j < i && i + 1 <= j + TWO32
      ensures var f := ChunkFile(height, format, j % TWO32);
              f in files && files[f] == chunks[j] && j % TWO32 != i % TWO32
    {
      assert chunks[..i][j] == chunks[j];
      WithinTurn(j, i);
    }
  }

  /** Fewer than 2^32 steps apart, two indices have different files. */
  lemma WithinTurn(j: nat, i: nat)
    requires j < i < j + TWO32
    ensures j % TWO32 != i % TWO32
  {
  }

  /** `hash` is SHA-256. `files` and `dirs` are what is on disk, `saving` the heights being saved. */
  class Store {
    const hash: Bytes -> Bytes
    var db: Database
    var files: map<ChunkFile, Bytes>
    var dirs: Directories
    var saving: set<Uint64>

    ghost predicate Valid()
      reads this
    {
      Indexed(db)
    }

    constructor (h: Bytes -> Bytes)
      ensures Valid() && hash == h && db == map[] && files == map[] && dirs == map[] && saving == {}
    {
      hash, db, files, dirs, saving := h, map[], map[], map[], {};
    }

    /** Deletes a snapshot, unless its height is being saved. */
    method Delete(height: Uint64, format: Uint32) returns (ok: bool)
      modifies this`db, this`files, this`dirs
      ensures old(Valid()) ==> Valid()
      ensures ok <==> height !in saving
      ensures dirs == if ok then RemoveDir(old(dirs), height, format) else old(dirs)
      ensures ok ==> db == old(db) - {EncodeKey(height, format)}
      ensures ok ==> files == map f | f in old(files) && !(f.height == height && f.format == format) :: old(files)[f]
      ensures !ok ==> db == old(db) && files == old(files)
    {
      if height in saving {
        return false;
      }
      db := db - {EncodeKey(height, format)};
      files := map f | f in files && !(f.height == height && f.format == format) :: files[f];
      dirs := RemoveDir(dirs, height, format);
      ok := true;
    }

    /** All visible snapshots, newest first. */
    method List() returns (r: seq<Snapshot>)
      requires Valid()
      ensures forall s :: s in r <==> KeyOf(s) in db && db[KeyOf(s)] == s && Visible(KeyOf(s))
      ensures forall i, j :: 0 <= i < j < |r| ==>
                r[j].height < r[i].height || (r[j].height == r[i].height && r[j].format < r[i].format)
    {
      var it := ReverseIterator(db);
      r := [];
      for i := 0 to |it|
        invariant |r| == i && forall j :: 0 <= j < i ==> it[j] in db && r[j] == db[it[j]]
      {
        assert it[i] in it;
        r := r + [db[it[i]]];
      }
      forall i, j | 0 <= i < j < |r|
        ensures r[j].height < r[i].height || (r[j].height == r[i].height && r[j].format < r[i].format)
      {
        assert it[i] in db && it[j] in db && LexLess(it[j], it[i]);
        KeyOrder(r[j].height, r[j].format, r[i].height, r[i].format);
      }
      forall s
        ensures s in r <==> KeyOf(s) in db && db[KeyOf(s)] == s && Visible(KeyOf(s))
      {
        if s in r {
          var i :| 0 <= i < |r| && r[i] == s;
          assert it[i] in db && it[i] == KeyOf(s);
        }
        if KeyOf(s) in db && db[KeyOf(s)] == s && Visible(KeyOf(s)) {
          var i :| 0 <= i < |it| && it[i] == KeyOf(s);
          assert r[i] == s;
        }
      }
    }

    /** The newest visible snapshot. */
    method GetLatest() returns (r: Option<Snapshot>)
      requires Valid()
      ensures r.None? <==> forall k :: k in db ==> !Visible(k)
      ensures r.Some? ==> KeyOf(r.value) in db && db[KeyOf(r.value)] == r.value && Visible(KeyOf(r.value))
      ensures r.Some? ==> forall k :: k in db && Visible(k) ==> db[k].height <= r.value.height
    {
      var it := ReverseIterator(db);
      if it == [] {
        forall k | k in db
          ensures !Visible(k)
        {
          assert k !in it;
        }
        return None;
      }
      assert it[0] in it;
      r := Some(db[it[0]]);
      forall k | k in db && Visible(k)
        ensures db[k].height <= r.value.height
      {
        var i :| 0 <= i < |it| && it[i] == k;
        if i > 0 {
          assert LexLess(it[i], it[0]);
          KeyOrder(db[k].height, db[k].format, r.value.height, r.value.format);
        }
      }
    }

    /**
      * Saves a snapshot from its chunks, in order: a file and a hash per chunk, one hash over everything.
      * The chunk index is a uint32.
      */
    method Save(height: Uint64, format: Uint32, chunks: seq<Bytes>) returns (r: Result<Snapshot, SaveError>)
      requires Valid()
      modifies this`db, this`files, this`dirs, this`saving
      ensures Valid() && saving == old(saving)
      ensures r.Err? ==> db == old(db) && files == old(files)
      ensures dirs == if r.Ok? && chunks != [] then MakeDir(old(dirs), height, format) else old(dirs)
      ensures r.Ok? <==> height != 0 && height !in saving && EncodeKey(height, format) !in old(db)
      ensures r == Err(ZeroHeight) <==> height == 0
      ensures r == Err(AlreadySaving) <==> height != 0 && height in saving
      ensures r == Err(AlreadyExists) <==> height != 0 && height !in saving && EncodeKey(height, format) in old(db)
      ensures r.Ok? ==> Describes(hash, r.value, chunks) && r.value.height == height && r.value.format == format
      ensures r.Ok? ==> db == old(db)[EncodeKey(height, format) := r.value]
      ensures r.Ok? ==> Stored(files, height, format, chunks)
    {
      if height == 0 {
        return Err(ZeroHeight);
      }
      if height in saving {
        return Err(AlreadySaving);
      }
      saving := saving + {height};
      if EncodeKey(height, format) in db {
        saving := saving - {height};
        return Err(AlreadyExists);
      }
      var index, hashes, digest := SaveChunks(height, format, chunks);
      var snapshot := Snapshot(height, format, index, digest, hashes);
      db := db[EncodeKey(height, format) := snapshot];
      saving := saving - {height};
      r := Ok(snapshot);
    }

    /** One chunk into its file, making its directory first. */
    method SaveChunk(height: Uint64, format: Uint32, index: Uint32, chunk: Bytes)
      modifies this`files, this`dirs
      ensures files == old(files)[ChunkFile(height, format, index) := chunk]
      ensures dirs == MakeDir(old(dirs), height, format)
    {
      dirs := MakeDir(dirs, height, format);
      files := files[ChunkFile(height, format, index) := chunk];
    }

    /** The chunk loop of `Save`: `saveChunk` on each body with a running index. */
    method SaveChunks(height: Uint64, format: Uint32, chunks: seq<Bytes>)
      returns (index: Uint32, hashes: seq<Bytes>, digest: Bytes)
      modifies this`files, this`dirs
      ensures dirs == if chunks != [] then MakeDir(old(dirs), height, format) else old(dirs)
      ensures Describes(hash, Snapshot(height, format, index, digest, hashes), chunks)
      ensures Stored(files, height, format, chunks)
    {
      index, hashes := 0, [];
      var all: Bytes := [];
      for i := 0 to |chunks|
        invariant index == i % TWO32
        invariant dirs == if i > 0 then MakeDir(old(dirs), height, format) else old(dirs)
        invariant Digested(hash, chunks, i, hashes, all)
        invariant Stored(files, height, format, chunks[..i])
      {
        StoredMore(files, height, format, chunks, i);
        MakeDirTwice(old(dirs), height, format);
        SaveChunk(height, format, index, chunks[i]);
        DigestedMore(hash, chunks, i, hashes, all);
        hashes := hashes + [hash(chunks[i])];
        all := all + chunks[i];
        index := (index + 1) % TWO32;
      }
      assert chunks[..|chunks|] == chunks;
      digest := hash(all);
    }

    /**
      * Keeps every format of the `retain` greatest distinct heights and deletes every other visible snapshot;
      * no height is split. It then removes the directories of the pruned heights, and fails when one is missing
      * or not empty, although the records are gone by then. It also fails when a height to delete is being saved.
      */
    method Prune(retain: Uint32) returns (pruned: Option<nat>)
      requires Valid()
      modifies this`db, this`files, this`dirs
      ensures Valid()
      ensures pruned.Some? <==>
        PrunedHeights(old(db), retain) !! saving && Clearable(old(db), old(dirs), retain)
      ensures PrunedHeights(old(db), retain) !! saving ==>
        db == Retained(old(db), retain) && files == FilesLeft(old(files), old(db), db)
      ensures pruned.Some? ==> pruned.value == |old(db)| - |db|
      ensures pruned.Some? ==> dirs == DirsLeft(old(dirs), old(db), db) - PrunedHeights(old(db), retain)
    {
      ghost var was := db;
      var count, heights := PruneRecords(retain);
      if count.None? {
        return None;
      }
      GoneIsPruned(was, retain);
      ClearableExactly(was, old(dirs), retain);
      var ok := RemoveHeightDirs(heights);
      pruned := if ok then count else None;
    }

    /** The deletion loop: how many records were deleted, and of which heights. */
    method PruneRecords(retain: Uint32) returns (count: Option<nat>, heights: set<Uint64>)
      requires Valid()
      modifies this`db, this`files, this`dirs
      ensures Valid()
      ensures count.Some? <==> PrunedHeights(old(db), retain) !! saving
      ensures count.Some? ==>
        && db == Retained(old(db), retain) && heights == Gone(old(db), db) && count.value == |old(db)| - |db|
        && files == FilesLeft(old(files), old(db), db) && dirs == DirsLeft(old(dirs), old(db), db)
    {
      var it := ReverseIterator(db);
      ghost var was, d0, f0 := db, dirs, files;
      var skip: set<Uint64> := {};
      var n: nat := 0;
      heights := {};
      KeptNothing(was, it, skip);
      NothingGone(d0, f0, was);
      var i := 0;
      while i < |it|
        invariant 0 <= i <= |it|
        invariant Newest(skip, HeightsOf(was, it[..i]), retain)
        invariant db == Kept(was, it[..i], skip)
        invariant Cleared(was, db, d0, dirs, f0, files, heights) && |db| + n == |was| && heights !! saving
      {
        var deleted;
        skip, deleted := PruneKey(it, i, skip, retain, was, d0, f0, heights);
        if deleted.None? {
          return None, heights;
        }
        n := n + |deleted.value|;
        heights := heights + deleted.value;
        i := i + 1;
      }
      PruneEnds(was, it, skip, retain);
      count := Some(n);
    }

    /** One turn of the loop: the key is spared, or deleted with its directory. None when its height is being saved. */
    method PruneKey(it: seq<Bytes>, i: nat, skip: set<Uint64>, retain: Uint32,
                    ghost was: Database, ghost d0: Directories, ghost f0: map<ChunkFile, Bytes>,
                    ghost heights: set<Uint64>)
      returns (skip': set<Uint64>, deleted: Option<set<Uint64>>)
      requires Valid() && Indexed(was) && Descending(it) && i < |it|
      requires forall k :: k in it <==> k in was && Visible(k)
      requires Newest(skip, HeightsOf(was, it[..i]), retain) && db == Kept(was, it[..i], skip)
      requires Cleared(was, db, d0, dirs, f0, files, heights)
      modifies this`db, this`files, this`dirs
      ensures Valid()
      ensures deleted.None? ==> exists h :: h in PrunedHeights(was, retain) && h in saving
      ensures deleted.Some? ==>
        && Newest(skip', HeightsOf(was, it[..i + 1]), retain) && db == Kept(was, it[..i + 1], skip')
        && Cleared(was, db, d0, dirs, f0, files, heights + deleted.value)
        && |db| + |deleted.value| == |old(db)| && deleted.value !! saving
    {
      assert it[i] in it;
      PruneStep(was, it, i, skip, retain);
      var height, format := KeyParts(it[i], was[it[i]]);
      if height in skip || |skip| < retain {
        assert heights + {} == heights;
        return skip + {height}, Some({});
      }
      DeletedIsPruned(was, it, i, skip, retain);
      RemoveOne(db, it[i]);
      ClearedMore(was, db, d0, dirs, f0, files, heights, height, format);
      var ok := Delete(height, format);
      skip', deleted := skip, if ok then Some({height}) else None;
    }

    /** `os.Remove` on the directory of each height, in any order: it fails on one that is missing or not empty. */
    method RemoveHeightDirs(heights: set<Uint64>) returns (ok: bool)
      modifies this`dirs
      ensures ok <==> forall h :: h in heights ==> h in old(dirs) && old(dirs)[h] == {}
      ensures ok ==> dirs == old(dirs) - heights
    {
      var todo := heights;
      while todo != {}
        invariant todo <= heights
        invariant dirs == old(dirs) - (heights - todo)
        invariant forall h :: h in heights - todo ==> h in old(dirs) && old(dirs)[h] == {}
        decreases todo
      {
        var h :| h in todo;
        if h !in dirs || dirs[h] != {} {
          return false;
        }
        dirs := dirs - {h};
        todo := todo - {h};
      }
      ok := true;
    }
  }

  lemma {:induction false} NothingGone(dirs: Directories, files: map<ChunkFile, Bytes>, db: Database)
    ensures Gone(db, db) == {} && DirsLeft(dirs, db, db) == dirs && FilesLeft(files, db, db) == files
  {
    var left := DirsLeft(dirs, db, db);
    forall h | h in dirs
      ensures left[h] == dirs[h]
    {
    }
  }

  lemma {:induction false} GoneMore(was: Database, now: Database, k: Bytes)
    requires k in was
    ensures Gone(was, now - {k}) == Gone(was, now) + {was[k].height}
  {
    forall h
      ensures h in Gone(was, now - {k}) <==> h in Gone(was, now) + {was[k].height}
    {
      if h in Gone(was, now) {
        var x :| x in was && x !in now && was[x].height == h;
        assert x !in now - {k};
      }
      assert k !in now - {k};
    }
  }

  /** `decodeKey` on the key of a record. */
  method KeyParts(key: Bytes, ghost s: Snapshot) returns (height: Uint64, format: Uint32)
    requires KeyOf(s) == key
    ensures height == s.height && format == s.format && EncodeKey(height, format) == key
  {
    KeyRoundTrip(s.height, s.format);
    var parts := DecodeKey(key).value;
    height, format := parts.0, parts.1;
  }

  lemma {:induction false} RemoveOne(db: Database, k: Bytes)
    requires k in db
    ensures |db - {k}| == |db| - 1
  {
    assert (db - {k}).Keys == db.Keys - {k};
    assert |db.Keys| == |db.Keys - {k}| + 1;
  }

  /** The heights of the keys visited. */
  ghost function HeightsOf(db: Database, keys: seq<Bytes>): set<Uint64> {
    set k | k in keys && k in db :: db[k].height
  }

  /** What is left once the visited keys outside `skip` are gone. */
  ghost function Kept(db: Database, visited: seq<Bytes>, skip: set<Uint64>): Database {
    map k | k in db && (k in visited ==> db[k].height in skip) :: db[k]
  }

  /** Every format of the `retain` newest heights; the end key is never visited and always kept. */
  ghost function Retained(db: Database, retain: nat): Database {
    map k | k in db && (Visible(k) ==> Rank(db, db[k].height) < retain) :: db[k]
  }

  lemma KeptNothing(db: Database, it: seq<Bytes>, skip: set<Uint64>)
    ensures db == Kept(db, it[..0], skip)
    ensures HeightsOf(db, it[..0]) == {}
  {
  }

  /** One more key: its height joins `skip` while there is room, and otherwise the key goes. */
  lemma {:induction false} PruneStep(db: Database, it: seq<Bytes>, i: nat, skip: set<Uint64>, retain: nat)
    requires Indexed(db) && Descending(it) && i < |it|
    requires forall k :: k in it ==> k in db
    requires Newest(skip, HeightsOf(db, it[..i]), retain)
    ensures var key, h := it[i], db[it[i]].height;
            var kept := Kept(db, it[..i], skip);
            && key in kept
            && if h in skip || |skip| < retain
               then Newest(skip + {h}, HeightsOf(db, it[..i + 1]), retain)
                    && Kept(db, it[..i + 1], skip + {h}) == kept
               else Newest(skip, HeightsOf(db, it[..i + 1]), retain)
                    && Kept(db, it[..i + 1], skip) == kept - {key}
  {
    var key, h := it[i], db[it[i]].height;
    VisitedAreNewer(db, it, i);
    assert it[..i + 1] == it[..i] + [key];
    assert HeightsOf(db, it[..i + 1]) == HeightsOf(db, it[..i]) + {h};
    NewestGrows(skip, HeightsOf(db, it[..i]), h, retain);
    KeptStep(db, it[..i], key, skip);
  }

  lemma {:induction false} VisitedAreNewer(db: Database, it: seq<Bytes>, i: nat)
    requires Indexed(db) && Descending(it) && i < |it|
    requires forall k :: k in it ==> k in db
    ensures it[i] in db && it[i] !in it[..i]
    ensures forall g :: g in HeightsOf(db, it[..i]) ==> g >= db[it[i]].height
  {
    var key := it[i];
    assert key in it;
    forall k | k in it[..i]
      ensures k in db && k != key && db[k].height >= db[key].height
    {
      var j :| 0 <= j < i && it[j] == k;
      assert it[j] in it && LexLess(it[i], it[j]);
      LexAsymmetric(it[i], it[j]);
      KeyOrder(db[key].height, db[key].format, db[k].height, db[k].format);
    }
  }

  lemma {:induction false} NewestGrows(skip: set<Uint64>, passed: set<Uint64>, h: Uint64, retain: nat)
    requires Newest(skip, passed, retain) && forall g :: g in passed ==> g >= h
    ensures if h in skip || |skip| < retain
            then Newest(skip + {h}, passed + {h}, retain) && (skip + {h} == skip || skip == passed)
            else Newest(skip, passed + {h}, retain)
  {
    if h in skip {
      assert skip + {h} == skip && passed + {h} == passed;
    } else if |skip| < retain {
      NewestRoom(skip, h, retain);
    } else {
      NewestFull(skip, passed, h, retain);
    }
  }

  lemma {:induction false} NewestRoom(skip: set<Uint64>, h: Uint64, retain: nat)
    requires h !in skip && |skip| < retain
    ensures Newest(skip + {h}, skip + {h}, retain)
  {
    assert |skip + {h}| == |skip| + 1;
  }

  lemma {:induction false} NewestFull(skip: set<Uint64>, passed: set<Uint64>, h: Uint64, retain: nat)
    requires Newest(skip, passed, retain) && h !in skip && |skip| >= retain
    requires forall g :: g in passed ==> g >= h
    ensures Newest(skip, passed + {h}, retain)
  {
    forall g, x | g in skip && x in passed + {h} - skip
      ensures x < g
    {
      if x == h {
        assert g in passed;
      } else {
        assert x in passed - skip;
      }
    }
  }

  lemma {:induction false} KeptStep(db: Database, visited: seq<Bytes>, key: Bytes, skip: set<Uint64>)
    requires key in db && key !in visited
    ensures key in Kept(db, visited, skip)
    ensures var h := db[key].height;
            && (skip + {h} == skip || skip == HeightsOf(db, visited) ==>
                  Kept(db, visited + [key], skip + {h}) == Kept(db, visited, skip))
            && (h !in skip ==> Kept(db, visited + [key], skip) == Kept(db, visited, skip) - {key})
  {
    var h := db[key].height;
    if skip == HeightsOf(db, visited) {
      forall k | k in db && k in visited
        ensures db[k].height in skip
      {
      }
    }
  }

  lemma {:induction false} KeptIsRetained(db: Database, it: seq<Bytes>, skip: set<Uint64>, retain: nat)
    requires forall k :: k in it <==> k in db && Visible(k)
    requires Newest(skip, HeightsOf(db, it), retain)
    ensures Kept(db, it, skip) == Retained(db, retain)
  {
    assert HeightsOf(db, it) == Heights(db);
    forall k | k in db && Visible(k)
      ensures db[k].height in skip <==> Rank(db, db[k].height) < retain
    {
      assert db[k].height in Heights(db);
      NewestIsRank(skip, db, retain, db[k].height);
    }
  }

  lemma {:induction false} PruneEnds(db: Database, it: seq<Bytes>, skip: set<Uint64>, retain: nat)
    requires forall k :: k in it <==> k in db && Visible(k)
    requires Newest(skip, HeightsOf(db, it[..|it|]), retain)
    ensures Kept(db, it[..|it|], skip) == Retained(db, retain)
    ensures Gone(db, Retained(db, retain)) == PrunedHeights(db, retain)
  {
    assert it[..|it|] == it;
    KeptIsRetained(db, it, skip, retain);
    GoneIsPruned(db, retain);
  }

  /** A height is kept or dropped with all its formats. */
  lemma HeightsNeverSplit(db: Database, retain: nat, a: Bytes, b: Bytes)
    requires a in db && b in db && Visible(a) && Visible(b) && db[a].height == db[b].height
    ensures a in Retained(db, retain) <==> b in Retained(db, retain)
  {
  }

  // ---- When pruning succeeds ----

  /** Every snapshot with chunks has its directory, and every directory belongs to a snapshot. */
  ghost predicate Housed(db: Database, dirs: Directories) {
    && (forall k :: k in db && db[k].chunkHashes != [] ==> db[k].height in dirs && db[k].format in dirs[db[k].height])
    && (forall h, f :: h in dirs && f in dirs[h] ==> EncodeKey(h, f) in db)
  }

  /** Saving and deleting keep it so. */
  lemma SaveKeepsHoused(db: Database, dirs: Directories, x: Snapshot)
    requires Indexed(db) && Housed(db, dirs) && KeyOf(x) !in db
    ensures Housed(db[KeyOf(x) := x], if x.chunkHashes != [] then MakeDir(dirs, x.height, x.format) else dirs)
  {
  }

  lemma {:induction false} DeleteKeepsHoused(db: Database, dirs: Directories, h: Uint64, f: Uint32)
    requires Indexed(db) && Housed(db, dirs)
    ensures Housed(db - {EncodeKey(h, f)}, RemoveDir(dirs, h, f))
  {
    forall g, e
      ensures EncodeKey(h, f) == EncodeKey(g, e) <==> h == g && f == e
    {
      KeyInjective(h, f, g, e);
    }
    var now, left := db - {EncodeKey(h, f)}, RemoveDir(dirs, h, f);
    forall k | k in now && now[k].chunkHashes != []
      ensures now[k].height in left && now[k].format in left[now[k].height]
    {
      assert KeyOf(db[k]) == k;
    }
  }

  /** And so does pruning, when it succeeds. */
  lemma {:induction false} PruneKeepsHoused(db: Database, dirs: Directories, retain: nat)
    requires Indexed(db) && Housed(db, dirs) && Clearable(db, dirs, retain)
    ensures var now := Retained(db, retain);
            Housed(now, DirsLeft(dirs, db, now) - PrunedHeights(db, retain))
  {
    var now := Retained(db, retain);
    forall k | k in now && now[k].chunkHashes != []
      ensures now[k].height !in PrunedHeights(db, retain)
    {
      var x := db[k];
      assert KeyOf(x) == k && x.format in dirs[x.height];
    }
  }

  /**
    * In such a store nothing but a snapshot without chunks, or the one that is never visited, stops the directories
    * from being removed.
    */
  lemma {:induction false} HousedIsClearable(db: Database, dirs: Directories, retain: nat)
    requires Indexed(db) && Housed(db, dirs) && EndKey() !in db
    requires forall k :: k in db ==> db[k].chunkHashes != []
    ensures Clearable(db, dirs, retain)
  {
    forall h | h in PrunedHeights(db, retain)
      ensures h in dirs
      ensures forall f :: f in dirs[h] ==> EncodeKey(h, f) in db && EncodeKey(h, f) !in Retained(db, retain)
    {
      var k :| k in db && Visible(k) && db[k].height == h;
      forall f | f in dirs[h]
        ensures EncodeKey(h, f) in db && EncodeKey(h, f) !in Retained(db, retain)
      {
        var x := db[EncodeKey(h, f)];
        KeyInjective(h, f, x.height, x.format);
        VisibleUnlessLast(x);
      }
    }
  }

  /** A snapshot without chunks is saved without a directory, so that pruning it deletes its record and then fails. */
  method EmptySnapshotIsNotPruned(hash: Bytes -> Bytes, height: Uint64, format: Uint32)
    returns (saved: bool, pruned: Option<nat>, left: nat)
    requires height != 0 && !(height == TWO64 - 1 && format == TWO32 - 1)
    ensures saved && pruned.None? && left == 0
  {
    var store := new Store(hash);
    var r := store.Save(height, format, []);
    saved := r.Ok?;
    ghost var db := store.db;
    ghost var k := EncodeKey(height, format);
    assert db == map[k := r.value];
    VisibleUnlessLast(db[k]);
    assert k in db && Visible(k);
    assert height in Heights(db);
    assert height in PrunedHeights(db, 0);
    pruned := store.Prune(0);
    left := |store.db|;
    assert store.db == map[];
  }
}
