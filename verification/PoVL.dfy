/** The chain's block anchor: a sentinel transaction that commits to the other transactions. */
module PoVL {
  import opened Words
  import opened SnapshotKeys

  const MARKER: Uint32 := 0x4C57_5248
  const VERSION: Uint32 := 1
  const HEADER_SIZE: nat := 8
  const HASH_SIZE: nat := 96
  const ROOT_SIZE: nat := 32
  const STEP_SIZE: nat := 8
  const FIXED_SIZE: nat := 148
  const STEPS: Uint64 := 10

  /** The placeholder proof, in ASCII. */
  const PROOF: Bytes := [
    0x6d, 0x6f, 0x63, 0x6b, 0x2d, 0x67, 0x72, 0x6f, 0x74, 0x68, 0x31, 0x36, 0x2d, 0x70, 0x72, 0x6f,
    0x6f, 0x66, 0x2d, 0x66, 0x6f, 0x72, 0x2d, 0x70, 0x6f, 0x76, 0x6c
  ]

  type BlockHash = h: Bytes | |h| == HASH_SIZE witness Zeros(HASH_SIZE)
  type Digest = d: Bytes | |d| == ROOT_SIZE witness Zeros(ROOT_SIZE)

  /** The cryptography, left abstract: the block hash may fail, the others may not. */
  datatype Primitives = Primitives(
    blockHash: (Bytes, Bytes) -> Option<BlockHash>,
    legacyHash: (int, Bytes, Bytes) -> Bytes,
    validHash: BlockHash -> bool,
    sha3: Bytes -> Digest
  )

  function Zeros(n: nat): (r: Bytes)
    ensures |r| == n
  {
    seq(n, _ => 0)
  }

  /** `copy` into a fresh buffer of `n` bytes. */
  function Fit(b: Bytes, n: nat): (r: Bytes)
    ensures |r| == n && (|b| == n ==> r == b)
  {
    if |b| >= n then b[..n] else b + Zeros(n - |b|)
  }

  // ---- The sequential chain ----

  /** One step of the clock; a failed hash mixes in nothing. */
  function NextState(p: Primitives, state: Bytes): Digest {
    var current := Fit(state, ROOT_SIZE);
    var mix := match p.blockHash(current, current) case Some(h) => h case None => [];
    p.sha3(mix + current)
  }

  function Chain(p: Primitives, initial: Bytes, steps: nat): (r: Bytes)
    ensures |r| == ROOT_SIZE
  {
    if steps == 0 then Fit(initial, ROOT_SIZE) else NextState(p, Chain(p, initial, steps - 1))
  }

  method ComputePoVLChain(p: Primitives, initial: Bytes, steps: Uint64) returns (state: Bytes)
    ensures state == Chain(p, initial, steps)
  {
    state := Fit(initial, ROOT_SIZE);
    for i := 0 to steps
      invariant state == Chain(p, initial, i)
    {
      state := NextState(p, state);
    }
  }

  /** A run of the clock: from `start`, each state hashes the block hash of the one before, if any, and that one. */
  ghost predicate Ticking(p: Primitives, start: Bytes, states: seq<Bytes>) {
    && states != [] && states[0] == start
    && forall i :: 0 < i < |states| ==> states[i] == Tick(p, states[i - 1])
  }

  function Tick(p: Primitives, state: Bytes): Bytes {
    p.sha3((if p.blockHash(state, state).Some? then p.blockHash(state, state).value else []) + state)
  }

  lemma {:induction false} TicksAreChain(p: Primitives, initial: Bytes, states: seq<Bytes>, i: nat)
    requires |initial| == ROOT_SIZE && Ticking(p, initial, states) && i < |states|
    ensures states[i] == Chain(p, initial, i)
    decreases i
  {
    if i > 0 {
      TicksAreChain(p, initial, states, i - 1);
    }
  }

  lemma {:induction false} ChainTicks(p: Primitives, initial: Bytes, steps: nat) returns (states: seq<Bytes>)
    requires |initial| == ROOT_SIZE
    ensures Ticking(p, initial, states) && |states| == steps + 1
    decreases steps
  {
    if steps == 0 {
      states := [initial];
    } else {
      var before := ChainTicks(p, initial, steps - 1);
      states := before + [Tick(p, before[steps - 1])];
    }
  }

  /** The chain root is the state a run of that many steps ends in. */
  lemma {:induction false} ChainIsRun(p: Primitives, initial: Bytes, steps: nat, root: Bytes)
    requires |initial| == ROOT_SIZE
    ensures root == Chain(p, initial, steps) <==>
      exists states :: Ticking(p, initial, states) && |states| == steps + 1 && states[steps] == root
  {
    var states := ChainTicks(p, initial, steps);
    TicksAreChain(p, initial, states, steps);
    if exists other :: Ticking(p, initial, other) && |other| == steps + 1 && other[steps] == root {
      var other :| Ticking(p, initial, other) && |other| == steps + 1 && other[steps] == root;
      TicksAreChain(p, initial, other, steps);
    }
  }

  // ---- The sentinel ----

  /** What a sentinel carries; `tail` is whatever follows the proof. */
  datatype Sentinel = Sentinel(version: Uint32, hash: Bytes, root: Bytes, steps: Uint64, proof: Bytes, tail: Bytes)

  predicate WellFormed(s: Sentinel) {
    |s.hash| == HASH_SIZE && |s.root| == ROOT_SIZE && |s.proof| < TWO32
  }

  function Fixed(s: Sentinel): Bytes {
    BigEndian(MARKER, 4) + BigEndian(s.version, 4) + s.hash + s.root + BigEndian(s.steps, 8)
      + BigEndian(|s.proof| % TWO32, 4)
  }

  function Layout(s: Sentinel): Bytes {
    Fixed(s) + s.proof + s.tail
  }

  /** A buffer of the fixed size is its six pieces. */
  lemma {:induction false} SixPieces(f: Bytes)
    requires |f| == FIXED_SIZE
    ensures f == f[0..4] + f[4..8] + f[8..104] + f[104..136] + f[136..144] + f[144..148]
  {
    assert f == f[..144] + f[144..148];
    assert f[..144] == f[..136] + f[136..144];
    assert f[..136] == f[..104] + f[104..136];
    assert f[..104] == f[..8] + f[8..104];
    assert f[..8] == f[0..4] + f[4..8];
  }

  /** Six pieces of the right sizes are found again where they were put. */
  lemma PiecesFound(a: Bytes, b: Bytes, c: Bytes, d: Bytes, e: Bytes, g: Bytes, f: Bytes)
    requires |a| == |b| == |g| == 4 && |c| == HASH_SIZE && |d| == ROOT_SIZE && |e| == STEP_SIZE
    requires f == a + b + c + d + e + g
    ensures |f| == FIXED_SIZE && f[0..4] == a && f[4..8] == b && f[8..104] == c
    ensures f[104..136] == d && f[136..144] == e && f[144..148] == g
  {
  }

  /** A prefix and what follows it. */
  lemma PrefixFound(f: Bytes, x: Bytes, y: Bytes, b: Bytes)
    requires b == f + x + y
    ensures |b| == |f| + |x| + |y| && b[..|f|] == f && b[|f|..|f| + |x|] == x && b[|f| + |x|..] == y
  {
  }

  lemma PrefixSlices(b: Bytes)
    requires |b| >= FIXED_SIZE
    ensures b[..148][0..4] == b[0..4] && b[..148][4..8] == b[4..8] && b[..148][8..104] == b[8..104]
    ensures b[..148][104..136] == b[104..136] && b[..148][136..144] == b[136..144] && b[..148][144..148] == b[144..148]
  {
  }

  lemma {:induction false} FixedSlices(s: Sentinel, f: Bytes)
    requires WellFormed(s) && f == Fixed(s)
    ensures |f| == FIXED_SIZE
    ensures f[0..4] == BigEndian(MARKER, 4) && f[4..8] == BigEndian(s.version, 4)
    ensures f[8..104] == s.hash && f[104..136] == s.root
    ensures f[136..144] == BigEndian(s.steps, 8) && f[144..148] == BigEndian(|s.proof|, 4)
  {
    PiecesFound(BigEndian(MARKER, 4), BigEndian(s.version, 4), s.hash, s.root, BigEndian(s.steps, 8),
                BigEndian(|s.proof| % TWO32, 4), f);
  }

  lemma {:induction false} LayoutSlices(s: Sentinel, b: Bytes)
    requires WellFormed(s) && b == Layout(s)
    ensures |b| == FIXED_SIZE + |s.proof| + |s.tail|
    ensures b[0..4] == BigEndian(MARKER, 4) && b[4..8] == BigEndian(s.version, 4)
    ensures b[8..104] == s.hash && b[104..136] == s.root
    ensures b[136..144] == BigEndian(s.steps, 8) && b[144..148] == BigEndian(|s.proof|, 4)
    ensures b[148..148 + |s.proof|] == s.proof && b[148 + |s.proof|..] == s.tail
  {
    var f := Fixed(s);
    FixedSlices(s, f);
    PrefixFound(f, s.proof, s.tail, b);
    PrefixSlices(b);
  }

  /** Reads a sentinel off the front of a transaction. */
  function Parse(b: Bytes): Option<Sentinel> {
    if |b| < FIXED_SIZE || FromBigEndian(b[0..4]) != MARKER then None
    else
      var size := FromBigEndian(b[144..148]);
      if |b| < FIXED_SIZE + size then None
      else
        FromBigEndianInverse(b[4..8]);
        FromBigEndianInverse(b[136..144]);
        Powers();
        Some(Sentinel(FromBigEndian(b[4..8]), b[8..104], b[104..136], FromBigEndian(b[136..144]),
                      b[148..148 + size], b[148 + size..]))
  }

  /** Parsing inverts the layout. */
  lemma {:induction false} ParseLayout(s: Sentinel)
    requires WellFormed(s)
    ensures Parse(Layout(s)) == Some(s)
  {
    LayoutSlices(s, Layout(s));
    Powers();
    BigEndianInverse(MARKER, 4);
    BigEndianInverse(s.version, 4);
    BigEndianInverse(s.steps, 8);
    BigEndianInverse(|s.proof|, 4);
  }

  /** Whatever parses is the layout of what it parses to. */
  lemma {:induction false} LayoutParse(b: Bytes)
    requires Parse(b).Some?
    ensures WellFormed(Parse(b).value) && Layout(Parse(b).value) == b
  {
    var s := Parse(b).value;
    Powers();
    FromBigEndianInverse(b[0..4]);
    FromBigEndianInverse(b[4..8]);
    FromBigEndianInverse(b[136..144]);
    FromBigEndianInverse(b[144..148]);
    SixPieces(b[..148]);
    PrefixSlices(b);
    assert b == b[..148] + s.proof + s.tail;
  }

  // ---- Building ----

  /** `copy(buf[from:to], src)`. */
  method CopyTo(buf: array<Byte>, from: nat, to: nat, src: Bytes)
    requires from <= to <= buf.Length
    modifies buf
    ensures forall k :: 0 <= k < buf.Length ==>
      buf[k] == if from <= k < to && k - from < |src| then src[k - from] else old(buf[k])
  {
    var i := 0;
    while i < |src| && from + i < to
      invariant 0 <= i <= |src| && from + i <= to
      invariant forall k :: 0 <= k < buf.Length ==>
        buf[k] == if from <= k < from + i then src[k - from] else old(buf[k])
    {
      buf[from + i] := src[i];
      i := i + 1;
    }
  }

  /** A buffer whose first `n` bytes are written and whose others are still zero. */
  predicate Filled(buf: Bytes, written: Bytes) {
    |written| <= |buf| && buf[..|written|] == written && buf[|written|..] == Zeros(|buf| - |written|)
  }

  lemma {:induction false} FilledMore(before: Bytes, buf: Bytes, written: Bytes, to: nat, src: Bytes)
    requires Filled(before, written) && |written| <= to <= |buf| == |before|
    requires forall k :: 0 <= k < |buf| ==>
      buf[k] == if |written| <= k < to && k - |written| < |src| then src[k - |written|] else before[k]
    ensures Filled(buf, written + Fit(src, to - |written|))
  {
    var from := |written|;
    var piece := Fit(src, to - from);
    var all := written + piece;
    forall k | 0 <= k < |buf|
      ensures buf[k] == if k < |all| then all[k] else 0
    {
      if k < from {
        assert before[k] == before[..from][k] == written[k];
      } else {
        assert before[k] == before[from..][k - from] == 0;
      }
    }
  }

  /** Copies a piece at the offset and says what the buffer holds then. */
  method Fill(buf: array<Byte>, ghost written: Bytes, from: nat, to: nat, src: Bytes)
    requires from == |written| && from <= to <= buf.Length && Filled(buf[..], written)
    modifies buf
    ensures Filled(buf[..], written + Fit(src, to - from))
  {
    ghost var before := buf[..];
    CopyTo(buf, from, to, src);
    FilledMore(before, buf[..], written, to, src);
  }

  lemma {:induction false} PiecesAreFixed(s: Sentinel)
    requires s.version == VERSION
    ensures [] + BigEndian(MARKER, 4) + BigEndian(VERSION, 4) + s.hash + s.root + BigEndian(s.steps, 8)
      + BigEndian(|s.proof| % TWO32, 4) == Fixed(s)
  {
    assert [] + BigEndian(MARKER, 4) == BigEndian(MARKER, 4);
  }

  /** A buffer filled to its end is what was written. */
  lemma {:induction false} FilledUp(buf: Bytes, written: Bytes)
    requires Filled(buf, written) && |buf| == |written|
    ensures buf == written
  {
    assert buf[..|written|] == buf;
  }

  /** Fills a zeroed buffer piece by piece at a moving offset. */
  method BuildPoVLSentinel(lwrHash: Bytes, povlRoot: Bytes, steps: Uint64, proof: Bytes) returns (sentinel: Bytes)
    ensures sentinel == Layout(Sentinel(VERSION, Fit(lwrHash, HASH_SIZE), Fit(povlRoot, ROOT_SIZE), steps, proof, []))
  {
    var size := HEADER_SIZE + HASH_SIZE + ROOT_SIZE + STEP_SIZE + 4 + |proof|;
    var buf := new Byte[size](_ => 0);
    assert Filled(buf[..], []);
    var length := |proof| % TWO32;
    ghost var s := Sentinel(VERSION, Fit(lwrHash, HASH_SIZE), Fit(povlRoot, ROOT_SIZE), steps, proof, []);
    ghost var w := [] + BigEndian(MARKER, 4);
    Fill(buf, [], 0, 4, BigEndian(MARKER, 4));
    Fill(buf, w, 4, 8, BigEndian(VERSION, 4));
    w := w + BigEndian(VERSION, 4);
    var offset := HEADER_SIZE;
    Fill(buf, w, offset, offset + HASH_SIZE, lwrHash);
    w := w + s.hash;
    offset := offset + HASH_SIZE;
    Fill(buf, w, offset, offset + ROOT_SIZE, povlRoot);
    w := w + s.root;
    offset := offset + ROOT_SIZE;
    Fill(buf, w, offset, offset + STEP_SIZE, BigEndian(steps, 8));
    w := w + BigEndian(steps, 8);
    offset := offset + STEP_SIZE;
    Fill(buf, w, offset, offset + 4, BigEndian(length, 4));
    w := w + BigEndian(length, 4);
    offset := offset + 4;
    PiecesAreFixed(s);
    Fill(buf, w, offset, buf.Length, proof);
    sentinel := buf[..];
    FilledUp(sentinel, w + proof);
    assert w + proof + [] == w + proof;
  }

  method BuildTxPayload(txs: seq<Bytes>) returns (payload: Bytes)
    ensures payload == Flatten(txs)
  {
    payload := [];
    for i := 0 to |txs|
      invariant payload == Flatten(txs[..i])
    {
      assert txs[..i + 1] == txs[..i] + [txs[i]];
      FlattenSnoc(txs[..i], txs[i]);
      payload := payload + txs[i];
    }
    assert txs[..|txs|] == txs;
  }

  // ---- Acceptance ----

  /** The first transaction commits to the rest: to their hash, to a chain from that hash, and with the proof. */
  predicate Commits(p: Primitives, prevHash: Bytes, s: Sentinel, txs: seq<Bytes>) {
    && WellFormed(s)
    && p.blockHash(Flatten(txs), prevHash) == Some(s.hash)
    && p.validHash(s.hash)
    && s.proof == PROOF
    && s.root == Chain(p, s.hash[..32], s.steps)
  }

  /** A proposal is endorsed when it starts with the layout of a sentinel that commits to the rest. */
  ghost predicate Endorsed(p: Primitives, prevHash: Bytes, txs: seq<Bytes>) {
    txs != [] && exists s :: txs[0] == Layout(s) && Commits(p, prevHash, s, txs[1..])
  }

  /** Endorsement is decided by the one sentinel the first transaction parses to. */
  lemma {:induction false} EndorsedByParsed(p: Primitives, prevHash: Bytes, txs: seq<Bytes>)
    requires txs != []
    ensures Endorsed(p, prevHash, txs) <==>
      Parse(txs[0]).Some? && Commits(p, prevHash, Parse(txs[0]).value, txs[1..])
  {
    if Endorsed(p, prevHash, txs) {
      var s :| txs[0] == Layout(s) && Commits(p, prevHash, s, txs[1..]);
      ParseLayout(s);
    }
    if Parse(txs[0]).Some? {
      LayoutParse(txs[0]);
    }
  }

  /** The bytes of the first transaction that endorse the others, position by position. */
  ghost predicate EndorsingBytes(p: Primitives, prevHash: Bytes, b: Bytes, txs: seq<Bytes>) {
    && |b| >= 148 + |PROOF|
    && b[0..4] == BigEndian(MARKER, 4) && b[144..148] == BigEndian(|PROOF|, 4) && b[148..148 + |PROOF|] == PROOF
    && p.blockHash(Flatten(txs), prevHash) == Some(b[8..104]) && p.validHash(b[8..104])
    && exists states :: Ticking(p, b[8..40], states) && |states| == FromBigEndian(b[136..144]) + 1
                        && states[|states| - 1] == b[104..136]
  }

  lemma {:induction false} NumberIs(b: Bytes, v: nat)
    requires |b| == 4 && v < TWO32
    ensures b == BigEndian(v, 4) <==> FromBigEndian(b) == v
  {
    Powers();
    BigEndianInverse(v, 4);
    FromBigEndianInverse(b);
  }

  /** What the parsed sentinel of a transaction is, in terms of its bytes. */
  lemma {:induction false} ParsedCommits(p: Primitives, prevHash: Bytes, b: Bytes, txs: seq<Bytes>)
    requires Parse(b).Some?
    ensures Commits(p, prevHash, Parse(b).value, txs) <==> EndorsingBytes(p, prevHash, b, txs)
  {
    var s := Parse(b).value;
    LayoutParse(b);
    NumberIs(b[0..4], MARKER);
    NumberIs(b[144..148], |PROOF|);
    assert s.hash[..32] == b[8..40];
    ChainIsRun(p, b[8..40], s.steps, s.root);
  }

  /** Acceptance as a condition on bytes: marker, block hash, clock run, proof length and proof. */
  lemma {:induction false} EndorsedExactly(p: Primitives, prevHash: Bytes, b: Bytes, txs: seq<Bytes>)
    ensures Endorsed(p, prevHash, [b] + txs) <==> EndorsingBytes(p, prevHash, b, txs)
  {
    var all := [b] + txs;
    assert all[1..] == txs;
    EndorsedByParsed(p, prevHash, all);
    if Parse(b).Some? {
      ParsedCommits(p, prevHash, b, txs);
    } else if |b| >= FIXED_SIZE {
      NumberIs(b[0..4], MARKER);
      NumberIs(b[144..148], |PROOF|);
    }
  }

  datatype Verdict = Accept | Reject | Panicked

  /** A transaction that passes the length checks but ends inside its proof length. */
  predicate CutShort(b: Bytes) {
    144 <= |b| < FIXED_SIZE && FromBigEndian(b[0..4]) == MARKER
  }

  /** Such a transaction is what is left of a sentinel that was cut inside its proof length. */
  lemma {:induction false} CutShortExactly(b: Bytes)
    ensures CutShort(b) <==> 144 <= |b| < 148 && exists s :: WellFormed(s) && b == Layout(s)[..|b|]
  {
    if CutShort(b) {
      var head := b + Zeros(148 - |b|);
      Powers();
      FromBigEndianInverse(head[144..148]);
      var whole := head + Zeros(FromBigEndian(head[144..148]));
      assert whole[144..148] == head[144..148] && whole[0..4] == b[0..4];
      LayoutParse(whole);
      assert b == whole[..|b|];
    }
    if 144 <= |b| < 148 && exists s :: WellFormed(s) && b == Layout(s)[..|b|] {
      var s :| WellFormed(s) && b == Layout(s)[..|b|];
      FixedSlices(s, Fixed(s));
      assert b[0..4] == Fixed(s)[0..4];
      NumberIs(b[0..4], MARKER);
    }
  }

  /** The privacy store a proposal sees, and the handlers over it. */
  class LWRApp {
    const p: Primitives
    const height: int
    var latestPQCHash: Option<Bytes>
    var lwrProposalHash: Option<Bytes>

    constructor (p: Primitives, height: int, latest: Option<Bytes>)
      ensures this.p == p && this.height == height && latestPQCHash == latest && lwrProposalHash == None
    {
      this.p := p;
      this.height := height;
      latestPQCHash := latest;
      lwrProposalHash := None;
    }

    function PrevHash(): Bytes
      reads this
    {
      match latestPQCHash case Some(h) => h case None => Zeros(32)
    }

    /** The hash a proposer anchors, with the legacy hash as a fallback. */
    function AnchorHash(txs: seq<Bytes>): BlockHash
      reads this
    {
      var payload := Flatten(txs);
      match p.blockHash(payload, PrevHash())
      case Some(h) => h
      case None => Fit(p.legacyHash(height, PrevHash(), payload), HASH_SIZE)
    }

    method LWRPrepareProposal(txs: seq<Bytes>) returns (r: seq<Bytes>)
      ensures r == Proposed(p, AnchorHash(txs), txs)
    {
      var payload := BuildTxPayload(txs);
      var prevHash := PrevHash();
      var hashed := p.blockHash(payload, prevHash);
      var lwrHash :=
        match hashed
        case Some(h) => h
        case None => Fit(p.legacyHash(height, prevHash, payload), HASH_SIZE);
      var povlRoot := ComputePoVLChain(p, lwrHash[..32], STEPS);
      var sentinel := BuildPoVLSentinel(lwrHash, povlRoot, STEPS, PROOF);
      r := [sentinel] + txs;
    }

    method LWRProcessProposal(txs: seq<Bytes>) returns (v: Verdict)
      modifies this`lwrProposalHash
      ensures v.Accept? <==> Endorsed(p, PrevHash(), txs)
      ensures v.Panicked? <==> txs != [] && CutShort(txs[0])
      ensures lwrProposalHash == if v.Accept? then p.blockHash(Flatten(txs[1..]), PrevHash()) else old(lwrProposalHash)
    {
      if |txs| == 0 {
        return Reject;
      }
      EndorsedByParsed(p, PrevHash(), txs);
      var sentinel := txs[0];
      if |sentinel| < HEADER_SIZE {
        return Reject;
      }
      if FromBigEndian(sentinel[0..4]) != MARKER {
        return Reject;
      }
      var offset := HEADER_SIZE;
      if |sentinel| < offset + HASH_SIZE + ROOT_SIZE + STEP_SIZE {
        return Reject;
      }
      var claimedHash := sentinel[offset..offset + HASH_SIZE];
      offset := offset + HASH_SIZE;
      var claimedRoot := sentinel[offset..offset + ROOT_SIZE];
      offset := offset + ROOT_SIZE;
      FromBigEndianInverse(sentinel[offset..offset + STEP_SIZE]);
      Powers();
      var claimedSteps: Uint64 := FromBigEndian(sentinel[offset..offset + STEP_SIZE]);
      offset := offset + STEP_SIZE;
      if |sentinel| < offset + 4 {
        return Panicked;
      }
      var proofLen := FromBigEndian(sentinel[offset..offset + 4]);
      offset := offset + 4;
      if |sentinel| < offset + proofLen {
        return Reject;
      }
      var claimedProof := sentinel[offset..offset + proofLen];
      LayoutParse(sentinel);
      v := Verify(txs[1..], Sentinel(FromBigEndian(sentinel[4..8]), claimedHash, claimedRoot, claimedSteps,
                                     claimedProof, sentinel[offset + proofLen..]));
    }

    /** The checks on what was read, in the order of the program. */
    method Verify(userTxs: seq<Bytes>, s: Sentinel) returns (v: Verdict)
      requires WellFormed(s)
      modifies this`lwrProposalHash
      ensures v == if Commits(p, PrevHash(), s, userTxs) then Accept else Reject
      ensures lwrProposalHash ==
        if v.Accept? then p.blockHash(Flatten(userTxs), PrevHash()) else old(lwrProposalHash)
    {
      var payload := BuildTxPayload(userTxs);
      var expected := p.blockHash(payload, PrevHash());
      if expected.None? {
        return Reject;
      }
      if s.hash != expected.value {
        return Reject;
      }
      if !p.validHash(expected.value) {
        return Reject;
      }
      if s.proof != PROOF {
        return Reject;
      }
      var final := ComputePoVLChain(p, expected.value[..32], s.steps);
      if final != s.root {
        return Reject;
      }
      lwrProposalHash := expected;
      return Accept;
    }

    /** The engine's entry point: a recovered panic is a rejection. */
    method ProcessProposal(txs: seq<Bytes>) returns (accept: bool)
      modifies this`lwrProposalHash
      ensures accept <==> Endorsed(p, PrevHash(), txs)
    {
      var v := LWRProcessProposal(txs);
      return v.Accept?;
    }
  }

  /** The proposal built around a hash: its sentinel and then the transactions. */
  function Proposed(p: Primitives, hash: BlockHash, txs: seq<Bytes>): seq<Bytes> {
    [Layout(Sentinel(VERSION, hash, Chain(p, hash[..32], STEPS), STEPS, PROOF, []))] + txs
  }

  /**
    * A sentinel with the chain of a hash, of any version, step count and tail, is accepted if and only if the hash is
    * the block hash of the other transactions and valid: none of the three is bound.
    */
  lemma {:induction false} SentinelIsEndorsed(
      p: Primitives, prevHash: Bytes, hash: BlockHash, txs: seq<Bytes>, version: Uint32, steps: Uint64, tail: Bytes)
    ensures var s := Sentinel(version, hash, Chain(p, hash[..32], steps), steps, PROOF, tail);
            Endorsed(p, prevHash, [Layout(s)] + txs) <==>
              p.blockHash(Flatten(txs), prevHash) == Some(hash) && p.validHash(hash)
  {
    var s := Sentinel(version, hash, Chain(p, hash[..32], steps), steps, PROOF, tail);
    var all := [Layout(s)] + txs;
    assert all[1..] == txs;
    EndorsedByParsed(p, prevHash, all);
    ParseLayout(s);
  }

  /** A proposal is accepted under the same previous hash exactly when the block hash succeeds and is valid. */
  lemma {:induction false} ProposedIsEndorsed(p: Primitives, prevHash: Bytes, hash: BlockHash, txs: seq<Bytes>)
    ensures Endorsed(p, prevHash, Proposed(p, hash, txs)) <==>
      p.blockHash(Flatten(txs), prevHash) == Some(hash) && p.validHash(hash)
  {
    SentinelIsEndorsed(p, prevHash, hash, txs, VERSION, STEPS, []);
  }

  /** Endorsement sees the other transactions only through their concatenation, not through its boundaries. */
  lemma {:induction false} EndorsementSeesConcatenation(
      p: Primitives, prevHash: Bytes, sentinel: Bytes, txs: seq<Bytes>, others: seq<Bytes>)
    requires Flatten(txs) == Flatten(others)
    ensures Endorsed(p, prevHash, [sentinel] + txs) <==> Endorsed(p, prevHash, [sentinel] + others)
  {
    var a, b := [sentinel] + txs, [sentinel] + others;
    assert a[1..] == txs && b[1..] == others;
    EndorsedByParsed(p, prevHash, a);
    EndorsedByParsed(p, prevHash, b);
  }

  /** Any sentinel that the first transaction of an endorsed proposal lays out commits to the rest. */
  lemma {:induction false} EndorsementBinds(p: Primitives, prevHash: Bytes, txs: seq<Bytes>, s: Sentinel)
    requires Endorsed(p, prevHash, txs) && WellFormed(s) && txs[0] == Layout(s)
    ensures p.blockHash(Flatten(txs[1..]), prevHash) == Some(s.hash) && p.validHash(s.hash) && s.proof == PROOF
    ensures s.root == Chain(p, s.hash[..32], s.steps)
  {
    EndorsedByParsed(p, prevHash, txs);
    ParseLayout(s);
  }
}
