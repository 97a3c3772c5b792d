/** The snapshot manager: one operation at a time, and hash-checked restoration chunk by chunk. */
module RestoreManager {
  import opened Words
  import opened SnapshotStore

  const CURRENT_FORMAT: Uint32 := 3

  datatype Operation = OpNone | OpSnapshot | OpPrune | OpRestore

  /** A channel of chunk ids: what was sent on it and how often it was closed. */
  datatype Channel = Channel(sent: seq<Uint32>, closes: nat)

  /**
    * The fields guarded by the mutex, as they are whenever it is released. `channels` holds every chunk-id
    * channel ever made; `chRestore` tells whether the field refers to the last one or is nil. `files` and `db`
    * are the snapshot store's.
    */
  datatype State = State(
    operation: Operation,
    channels: seq<Channel>, chRestore: bool,
    snapshot: Option<Snapshot>, index: Uint32,
    files: map<ChunkFile, Bytes>, db: Database)

  datatype Reply =
    | Accepted | Complete
    | NoChunks | HashCountMismatch | UnknownFormat | HeightZero | HeightTooLarge
    | Conflict | NoneOperation
    | NoRestore | UnexpectedChunk | HashMismatch | EndedEarly | RestoreFailed

  predicate Good(r: Reply) {
    r.Accepted? || r.Complete?
  }

  // ---- Steps under the mutex ----

  function BeginStep(s: State, op: Operation): (State, Reply) {
    if op == OpNone then (s, NoneOperation)
    else if s.operation != OpNone then (s, Conflict)
    else (s.(operation := op), Accepted)
  }

  function CloseLast(cs: seq<Channel>): seq<Channel>
    requires cs != []
  {
    cs[|cs| - 1 := cs[|cs| - 1].(closes := cs[|cs| - 1].closes + 1)]
  }

  function SendLast(cs: seq<Channel>, id: Uint32): seq<Channel>
    requires cs != []
  {
    cs[|cs| - 1 := cs[|cs| - 1].(sent := cs[|cs| - 1].sent + [id])]
  }

  function EndStep(s: State): State {
    var cs := if s.chRestore && s.channels != [] then CloseLast(s.channels) else s.channels;
    s.(operation := OpNone, channels := cs, chRestore := false, snapshot := None, index := 0)
  }

  /** The checks of `Restore`; the number of hashes is compared as a uint32. */
  function RestoreCheck(x: Snapshot): Reply {
    if x.chunks == 0 then NoChunks
    else if |x.chunkHashes| % TWO32 != x.chunks then HashCountMismatch
    else if x.format != CURRENT_FORMAT then UnknownFormat
    else if x.height == 0 then HeightZero
    else if x.height >= TWO63 then HeightTooLarge
    else Accepted
  }

  function RestoreStep(s: State, x: Snapshot): (State, Reply) {
    if RestoreCheck(x) != Accepted then (s, RestoreCheck(x))
    else
      var (s1, r) := BeginStep(s, OpRestore);
      if r != Accepted then (s, r)
      else (s1.(channels := s.channels + [Channel([], 0)], chRestore := true, snapshot := Some(x), index := 0),
            Accepted)
  }

  /**
    * `RestoreChunk`. `early` is the result of the background restoration if it already ended, `final` its
    * result once every chunk is in; true means without error.
    */
  function ChunkStep(hash: Bytes -> Bytes, s: State, chunk: Bytes, early: Option<bool>, final: bool): (State, Reply) {
    if s.operation != OpRestore || s.snapshot.None? || s.channels == [] then (s, NoRestore)
    else
      var x := s.snapshot.value;
      if s.index >= |x.chunkHashes| then (s, UnexpectedChunk)
      else if early.Some? then (EndStep(s), if early.value then EndedEarly else RestoreFailed)
      else if hash(chunk) != x.chunkHashes[s.index] then (s, HashMismatch)
      else
        var s1 := s.(files := s.files[ChunkFile(x.height, x.format, s.index) := chunk],
                     channels := SendLast(s.channels, s.index), index := (s.index + 1) % TWO32);
        if s1.index < |x.chunkHashes| then (s1, Accepted)
        else
          var s2 := s1.(channels := CloseLast(s1.channels), chRestore := false, db := s1.db[KeyOf(x) := x]);
          (EndStep(s2), if final then Complete else RestoreFailed)
  }

  /** Calls as they take the mutex. `End` is the deferred end of a snapshot or prune operation. */
  datatype Event =
    | Begin(op: Operation)
    | End
    | Restore(x: Snapshot)
    | Chunk(chunk: Bytes, early: Option<bool>, final: bool)
    | LocalRestore

  predicate Owned(s: State) {
    s.operation == OpSnapshot || s.operation == OpPrune
  }

  function Step(hash: Bytes -> Bytes, s: State, e: Event): (State, Reply) {
    match e
    case Begin(op) => if op == OpRestore then (s, NoneOperation) else BeginStep(s, op)
    case End => if Owned(s) then (EndStep(s), Accepted) else (s, NoneOperation)
    case Restore(x) => RestoreStep(s, x)
    case Chunk(c, early, final) => ChunkStep(hash, s, c, early, final)
    case LocalRestore =>
      (var (s1, r) := BeginStep(s, OpRestore);
       if r != Accepted then (s, r) else (EndStep(s1), Accepted))
  }

  function Run(hash: Bytes -> Bytes, s: State, es: seq<Event>): State
    decreases |es|
  {
    if es == [] then s else Run(hash, Step(hash, s, es[0]).0, es[1..])
  }

  // ---- The invariant ----

  /** 0, 1, ..., n - 1. */
  function Ids(n: Uint32): seq<Uint32> {
    seq(n, i requires 0 <= i < n => i)
  }

  /**
    * At every release of the mutex: a restore is in progress exactly when a snapshot is being restored and its
    * channel is open; that channel carried the ids below the index, in order, which is below the chunk count;
    * every other channel was closed exactly once.
    */
  ghost predicate Inv(s: State) {
    && (s.operation == OpRestore <==> s.snapshot.Some?)
    && (s.operation == OpRestore <==> s.chRestore)
    && (!s.chRestore ==> s.index == 0)
    && (s.chRestore ==>
          && s.channels != []
          && s.snapshot.Some?
          && |s.snapshot.value.chunkHashes| < TWO32
          && s.index < |s.snapshot.value.chunkHashes|
          && s.channels[|s.channels| - 1] == Channel(Ids(s.index), 0))
    && (forall i :: 0 <= i < |s.channels| && (s.chRestore ==> i < |s.channels| - 1) ==> s.channels[i].closes == 1)
  }

  predicate Countable(e: Event) {
    e.Restore? ==> |e.x.chunkHashes| < TWO32
  }

  lemma IdsNext(n: Uint32)
    requires n + 1 < TWO32
    ensures Ids(n) + [n] == Ids(n + 1)
  {
  }

  lemma {:induction false} ChunkKeepsInv(hash: Bytes -> Bytes, s: State, chunk: Bytes, early: Option<bool>, final: bool)
    requires Inv(s)
    ensures Inv(ChunkStep(hash, s, chunk, early, final).0)
  {
    if s.operation == OpRestore && s.index + 1 < TWO32 {
      IdsNext(s.index);
    }
  }

  lemma {:induction false} StepKeepsInv(hash: Bytes -> Bytes, s: State, e: Event)
    requires Inv(s) && Countable(e)
    ensures Inv(Step(hash, s, e).0)
  {
    if e.Chunk? {
      ChunkKeepsInv(hash, s, e.chunk, e.early, e.final);
    }
  }

  /** Every run of the manager keeps the invariant. */
  lemma {:induction false} RunKeepsInv(hash: Bytes -> Bytes, s: State, es: seq<Event>)
    requires Inv(s) && forall i :: 0 <= i < |es| ==> Countable(es[i])
    ensures Inv(Run(hash, s, es))
    decreases |es|
  {
    if es != [] {
      StepKeepsInv(hash, s, es[0]);
      RunKeepsInv(hash, Step(hash, s, es[0]).0, es[1..]);
    }
  }

  /** A refused call, and a chunk with the wrong hash, leave the manager and the store exactly as they were. */
  lemma RefusalChangesNothing(hash: Bytes -> Bytes, s: State, e: Event)
    requires Inv(s)
    ensures var (s', r) := Step(hash, s, e);
            && (!Good(r) && (e.Chunk? ==> r == NoRestore || r == HashMismatch) ==> s' == s)
            && (s.operation != OpNone && (e.Begin? || e.Restore? || e.LocalRestore?) ==> s' == s && !Good(r))
  {
  }

  /** The first index of a channel whose fate is settled keeps it: what was sent on a closed channel stays. */
  lemma ClosedStaysClosed(hash: Bytes -> Bytes, s: State, e: Event, i: nat)
    requires Inv(s) && i < |s.channels| && s.channels[i].closes == 1
    ensures var s' := Step(hash, s, e).0;
            i < |s'.channels| && s'.channels[i] == s.channels[i]
  {
  }

  // ---- A saved snapshot restores elsewhere ----

  /** The events that offer chunk `i`: any number of bad chunks, then the right one. */
  function Offers(bad: seq<Bytes>, good: Bytes): seq<Event> {
    if bad == [] then [Chunk(good, None, true)] else [Chunk(bad[0], None, true)] + Offers(bad[1..], good)
  }

  function AllOffers(bads: seq<seq<Bytes>>, chunks: seq<Bytes>): seq<Event>
    requires |bads| == |chunks|
  {
    if chunks == [] then [] else Offers(bads[0], chunks[0]) + AllOffers(bads[1..], chunks[1..])
  }

  lemma {:induction false} RunConcat(hash: Bytes -> Bytes, s: State, a: seq<Event>, b: seq<Event>)
    ensures Run(hash, s, a + b) == Run(hash, Run(hash, s, a), b)
    decreases |a|
  {
    if a == [] {
      assert a + b == b;
    } else {
      assert (a + b)[1..] == a[1..] + b;
      RunConcat(hash, Step(hash, s, a[0]).0, a[1..], b);
    }
  }

  /** Bad chunks are refused without effect until the right one comes. */
  lemma {:induction false} OffersAct(hash: Bytes -> Bytes, s: State, bad: seq<Bytes>, good: Bytes)
    requires Inv(s) && s.operation == OpRestore
    requires forall i :: 0 <= i < |bad| ==> hash(bad[i]) != s.snapshot.value.chunkHashes[s.index]
    ensures Run(hash, s, Offers(bad, good)) == ChunkStep(hash, s, good, None, true).0
    decreases |bad|
  {
    var es := Offers(bad, good);
    if bad == [] {
      assert es[1..] == [];
    } else {
      assert hash(bad[0]) != s.snapshot.value.chunkHashes[s.index];
      assert es[1..] == Offers(bad[1..], good);
      assert Step(hash, s, es[0]).0 == s;
      OffersAct(hash, s, bad[1..], good);
    }
  }

  /** Progress of a restore: the first `s.index` chunks are in their files. */
  ghost predicate Underway(hash: Bytes -> Bytes, s: State, x: Snapshot, chunks: seq<Bytes>) {
    && Inv(s) && s.operation == OpRestore && s.snapshot == Some(x)
    && Describes(hash, x, chunks) && |chunks| < TWO32
    && Stored(s.files, x.height, x.format, chunks[..s.index])
  }

  ghost predicate Restored(s: State, x: Snapshot, chunks: seq<Bytes>)
    requires |chunks| < TWO32
  {
    && Inv(s) && s.operation == OpNone
    && Stored(s.files, x.height, x.format, chunks)
    && KeyOf(x) in s.db && s.db[KeyOf(x)] == x
    && s.channels != [] && s.channels[|s.channels| - 1] == Channel(Ids(|chunks|), 1)
  }

  /** What a chunk with the expected hash does to the manager. */
  lemma {:induction false} ChunkArrives(hash: Bytes -> Bytes, s: State, x: Snapshot, chunk: Bytes)
    requires Inv(s) && s.operation == OpRestore && s.snapshot == Some(x) && hash(chunk) == x.chunkHashes[s.index]
    ensures var (s', r) := ChunkStep(hash, s, chunk, None, true);
            && s'.files == s.files[ChunkFile(x.height, x.format, s.index) := chunk]
            && if s.index + 1 < |x.chunkHashes|
               then r == Accepted && s'.operation == OpRestore && s'.snapshot == Some(x) && s'.index == s.index + 1
               else
                 && r == Complete && s'.operation == OpNone && KeyOf(x) in s'.db && s'.db[KeyOf(x)] == x
                 && s'.channels != [] && s'.channels[|s'.channels| - 1] == Channel(Ids(|x.chunkHashes|), 1)
  {
    if s.index + 1 < TWO32 {
      IdsNext(s.index);
    }
  }

  lemma {:induction false} OneMoreStored(hash: Bytes -> Bytes, s: State, s': State, x: Snapshot, chunks: seq<Bytes>)
    requires Underway(hash, s, x, chunks) && Inv(s')
    requires s'.files == s.files[ChunkFile(x.height, x.format, s.index) := chunks[s.index]]
    ensures Stored(s'.files, x.height, x.format, chunks[..s.index + 1])
    ensures s.index + 1 == |chunks| ==> Stored(s'.files, x.height, x.format, chunks)
    ensures s'.operation == OpRestore && s'.snapshot == Some(x) && s'.index == s.index + 1 ==>
      Underway(hash, s', x, chunks)
  {
    StoredMore(s.files, x.height, x.format, chunks, s.index);
    if s.index + 1 == |chunks| {
      assert chunks[..s.index + 1] == chunks;
    }
  }

  /** The next chunk moves the restore on, or finishes it. */
  lemma {:induction false} GoodChunk(hash: Bytes -> Bytes, s: State, x: Snapshot, chunks: seq<Bytes>)
    requires Underway(hash, s, x, chunks)
    ensures var (s', r) := ChunkStep(hash, s, chunks[s.index], None, true);
            if s.index + 1 < |chunks|
            then r == Accepted && Underway(hash, s', x, chunks) && s'.index == s.index + 1
            else r == Complete && Restored(s', x, chunks)
  {
    var i := s.index;
    ChunkKeepsInv(hash, s, chunks[i], None, true);
    ChunkArrives(hash, s, x, chunks[i]);
    OneMoreStored(hash, s, ChunkStep(hash, s, chunks[i], None, true).0, x, chunks);
  }

  lemma {:induction false} OffersComplete(
      hash: Bytes -> Bytes, s: State, x: Snapshot, chunks: seq<Bytes>, bads: seq<seq<Bytes>>)
    requires Underway(hash, s, x, chunks)
    requires |bads| == |chunks|
    requires forall i, j :: 0 <= i < |bads| && 0 <= j < |bads[i]| ==> hash(bads[i][j]) != x.chunkHashes[i]
    ensures Restored(Run(hash, s, AllOffers(bads[s.index..], chunks[s.index..])), x, chunks)
    decreases |chunks| - s.index
  {
    var i := s.index;
    var first, rest := Offers(bads[i], chunks[i]), AllOffers(bads[i + 1..], chunks[i + 1..]);
    assert bads[i..][1..] == bads[i + 1..] && chunks[i..][1..] == chunks[i + 1..];
    assert AllOffers(bads[i..], chunks[i..]) == first + rest;
    RunConcat(hash, s, first, rest);
    OffersAct(hash, s, bads[i], chunks[i]);
    GoodChunk(hash, s, x, chunks);
    var s' := ChunkStep(hash, s, chunks[i], None, true).0;
    if i + 1 < |chunks| {
      OffersComplete(hash, s', x, chunks, bads);
    } else {
      assert rest == [];
    }
  }

  /**
    * Every non-empty snapshot recorded by `Save` in the current format, at a height `Restore` allows, is
    * accepted by an idle manager; offering its chunks in order, with any number of bad chunks in between,
    * accepts each once and ends idle, with the snapshot and its chunks in the store.
    */
  lemma {:induction false} SavedSnapshotRestores(
      hash: Bytes -> Bytes, s: State, x: Snapshot, chunks: seq<Bytes>, bads: seq<seq<Bytes>>)
    requires Inv(s) && s.operation == OpNone
    requires Describes(hash, x, chunks) && 0 < |chunks| < TWO32
    requires x.format == CURRENT_FORMAT && 0 < x.height < TWO63
    requires |bads| == |chunks|
    requires forall i, j :: 0 <= i < |bads| && 0 <= j < |bads[i]| ==> hash(bads[i][j]) != x.chunkHashes[i]
    ensures RestoreStep(s, x).1 == Accepted
    ensures Restored(Run(hash, s, [Restore(x)] + AllOffers(bads, chunks)), x, chunks)
  {
    var s1 := RestoreStep(s, x).0;
    StepKeepsInv(hash, s, Restore(x));
    assert chunks[..0] == [];
    assert bads[0..] == bads && chunks[0..] == chunks;
    OffersComplete(hash, s1, x, chunks, bads);
    var es := [Restore(x)] + AllOffers(bads, chunks);
    assert es[1..] == AllOffers(bads, chunks);
  }

  /** The count check looks at 32 bits only: 2^32 + 1 hashes pass for one chunk. */
  lemma HashCountIsTruncated(x: Snapshot)
    requires x.chunks == 1 && |x.chunkHashes| == TWO32 + 1 && x.format == CURRENT_FORMAT && 0 < x.height < TWO63
    ensures RestoreCheck(x) == Accepted
  {
  }

  /**
    * An accepted restore has as many hashes as chunks, and keeps the invariant, if and only if the hashes are
    * fewer than 2^32.
    */
  lemma AcceptedCountExactly(s: State, x: Snapshot)
    requires Inv(s) && RestoreStep(s, x).1 == Accepted
    ensures |x.chunkHashes| == x.chunks <==> |x.chunkHashes| < TWO32
    ensures Inv(RestoreStep(s, x).0) <==> |x.chunkHashes| < TWO32
  {
  }

  /** The state of a manager that has just begun to restore `x`. */
  function Restoring(s: State, x: Snapshot): State {
    State(OpRestore, s.channels + [Channel([], 0)], true, Some(x), 0, s.files, s.db)
  }

  /** What an offered snapshot needs, in the order of the checks; an idle manager comes last. */
  ghost predicate Answers(s: State, x: Snapshot, r: Reply) {
    var count := |x.chunkHashes| % TWO32;
    && (r == NoChunks <==> x.chunks == 0)
    && (r == HashCountMismatch <==> x.chunks > 0 && count != x.chunks)
    && (r == UnknownFormat <==> x.chunks > 0 && count == x.chunks && x.format != 3)
    && (r == HeightZero <==> x.chunks > 0 && count == x.chunks && x.format == 3 && x.height == 0)
    && (r == HeightTooLarge <==> x.chunks > 0 && count == x.chunks && x.format == 3 && x.height >= TWO63)
    && (r == Conflict <==>
          x.chunks > 0 && count == x.chunks && x.format == 3 && 0 < x.height < TWO63 && s.operation != OpNone)
    && (r == Accepted <==>
          x.chunks > 0 && count == x.chunks && x.format == 3 && 0 < x.height < TWO63 && s.operation == OpNone)
  }

  /** An offered snapshot gets the reply of the first check it fails and changes nothing, or starts a restore. */
  lemma {:induction false} OfferedExactly(s: State, x: Snapshot)
    ensures var (s', r) := RestoreStep(s, x);
            Answers(s, x, r) && s' == if r == Accepted then Restoring(s, x) else s
  {
    assert RestoreStep(s, x).1 in {NoChunks, HashCountMismatch, UnknownFormat, HeightZero, HeightTooLarge, Conflict,
                                   Accepted};
  }

  /**
    * Operations other than an offered restore: one begins if and only if none is running, only a snapshot or prune
    * operation can be ended from outside, and a local restore begins and ends within one call.
    */
  lemma {:induction false} OperationsExactly(hash: Bytes -> Bytes, s: State, op: Operation)
    requires Inv(s)
    ensures var (s', r) := Step(hash, s, Begin(op));
            if (op == OpSnapshot || op == OpPrune) && s.operation == OpNone
            then r == Accepted && s' == s.(operation := op)
            else s' == s && r == if op == OpNone || op == OpRestore then NoneOperation else Conflict
    ensures var (s', r) := Step(hash, s, End);
            if s.operation == OpSnapshot || s.operation == OpPrune
            then r == Accepted && s' == s.(operation := OpNone)
            else s' == s && r == NoneOperation
    ensures var (s', r) := Step(hash, s, LocalRestore);
            s' == s && r == if s.operation == OpNone then Accepted else Conflict
  {
  }

  /** The channels once the open one has carried `n` ids and been closed `closes` times. */
  function Carrying(s: State, n: nat, closes: nat): seq<Channel>
    requires s.channels != [] && n < TWO32
  {
    s.channels[..|s.channels| - 1] + [Channel(Ids(n), closes)]
  }

  /**
    * Every outcome of a chunk: without a restore, after the background restoration has ended, with the wrong hash,
    * in the middle, and as the last one, when the snapshot is recorded even if the restoration failed.
    */
  lemma {:induction false} ChunkExactly(hash: Bytes -> Bytes, s: State, chunk: Bytes, early: Option<bool>, final: bool)
    requires Inv(s)
    ensures var (s', r) := ChunkStep(hash, s, chunk, early, final);
            if s.operation != OpRestore then s' == s && r == NoRestore
            else
              var x, i := s.snapshot.value, s.index;
              var files := s.files[ChunkFile(x.height, x.format, i) := chunk];
              if early.Some? then
                && r == (if early.value then EndedEarly else RestoreFailed)
                && s' == State(OpNone, Carrying(s, i, 1), false, None, 0, s.files, s.db)
              else if hash(chunk) != x.chunkHashes[i] then s' == s && r == HashMismatch
              else if i + 1 < |x.chunkHashes| then
                && r == Accepted
                && s' == State(OpRestore, Carrying(s, i + 1, 0), true, Some(x), i + 1, files, s.db)
              else
                && r == (if final then Complete else RestoreFailed)
                && i + 1 < TWO32
                && s' == State(OpNone, Carrying(s, i + 1, 1), false, None, 0, files, s.db[KeyOf(x) := x])
  {
    if s.operation == OpRestore && s.index + 1 < TWO32 {
      IdsNext(s.index);
    }
  }

  // ---- The manager as an object ----

  class Manager {
    const hash: Bytes -> Bytes
    var operation: Operation
    var channels: seq<Channel>
    var chRestore: bool
    var restoreSnapshot: Option<Snapshot>
    var restoreChunkIndex: Uint32
    var files: map<ChunkFile, Bytes>
    var db: Database

    ghost function Value(): State
      reads this
    {
      State(operation, channels, chRestore, restoreSnapshot, restoreChunkIndex, files, db)
    }

    ghost predicate Valid()
      reads this
    {
      Inv(Value())
    }

    constructor (h: Bytes -> Bytes)
      ensures Valid() && hash == h && Value() == State(OpNone, [], false, None, 0, map[], map[])
    {
      hash, operation, channels, chRestore := h, OpNone, [], false;
      restoreSnapshot, restoreChunkIndex, files, db := None, 0, map[], map[];
    }

    method BeginLocked(op: Operation) returns (r: Reply)
      modifies this`operation
      ensures (Value(), r) == BeginStep(old(Value()), op)
      ensures r == Accepted <==> op != OpNone && old(operation) == OpNone
      ensures operation == if r == Accepted then op else old(operation)
    {
      if op == OpNone {
        return NoneOperation;
      }
      if operation != OpNone {
        return Conflict;
      }
      operation := op;
      r := Accepted;
    }

    method EndLocked()
      modifies this
      ensures Value() == EndStep(old(Value()))
    {
      operation := OpNone;
      if chRestore {
        if channels != [] {
          channels := CloseLast(channels);
        }
        chRestore := false;
      }
      restoreSnapshot := None;
      restoreChunkIndex := 0;
    }

    method Restore(x: Snapshot) returns (r: Reply)
      requires Valid()
      modifies this
      ensures (Value(), r) == RestoreStep(old(Value()), x)
      ensures Answers(old(Value()), x, r)
      ensures Value() == if r == Accepted then Restoring(old(Value()), x) else old(Value())
      ensures |x.chunkHashes| < TWO32 ==> Valid()
    {
      OfferedExactly(Value(), x);
      if |x.chunkHashes| < TWO32 {
        StepKeepsInv(hash, Value(), Event.Restore(x));
      }
      var check := RestoreCheck(x);
      if check != Accepted {
        return check;
      }
      r := BeginLocked(OpRestore);
      if r != Accepted {
        return;
      }
      channels := channels + [Channel([], 0)];
      chRestore := true;
      restoreSnapshot := Some(x);
      restoreChunkIndex := 0;
    }

    method RestoreChunk(chunk: Bytes, early: Option<bool>, final: bool) returns (r: Reply)
      requires Valid()
      modifies this
      ensures Valid()
      ensures (Value(), r) == ChunkStep(hash, old(Value()), chunk, early, final)
    {
      ChunkKeepsInv(hash, Value(), chunk, early, final);
      if operation != OpRestore {
        return NoRestore;
      }
      var x := restoreSnapshot.value;
      if restoreChunkIndex >= |x.chunkHashes| {
        return UnexpectedChunk;
      }
      if early.Some? {
        EndLocked();
        return if early.value then EndedEarly else RestoreFailed;
      }
      if hash(chunk) != x.chunkHashes[restoreChunkIndex] {
        return HashMismatch;
      }
      files := files[ChunkFile(x.height, x.format, restoreChunkIndex) := chunk];
      channels := SendLast(channels, restoreChunkIndex);
      restoreChunkIndex := (restoreChunkIndex + 1) % TWO32;
      if restoreChunkIndex >= |x.chunkHashes| {
        channels := CloseLast(channels);
        chRestore := false;
        db := db[KeyOf(x) := x];
        EndLocked();
        return if final then Complete else RestoreFailed;
      }
      r := Accepted;
    }
  }
}
