/** The txs_begin_end migration: walk the blocks from high to low and move every block's transactions
    up inside the same table, making room for an empty system slot at each end of the block. */
module TxsBeginEnd {
  import opened Common

  type Transaction = nat
  type BlockKey = (nat, Hash)

  datatype Body = Body(baseTxId: nat, txAmount: nat)

  /** The EthTx and BlockBody tables. */
  datatype Tables = Tables(ethTx: map<nat, Transaction>, bodies: map<BlockKey, Body>)

  // ---------------------------------------------------------------------------------------------
  // Reading and writing transactions

  predicate IsNextKey(t: map<nat, Transaction>, from: nat, k: nat) {
    k in t && from <= k && forall j: nat :: j in t && from <= j ==> k <= j
  }

  lemma {:induction false} NextKeyExists(t: map<nat, Transaction>, from: nat, j: nat)
    requires j in t && from <= j
    ensures exists k :: IsNextKey(t, from, k)
    decreases j
  {
    if i :| i in t && from <= i < j {
      NextKeyExists(t, from, i);
    } else {
      assert IsNextKey(t, from, j);
    }
  }

  /** Cursor Seek: the least key not below `from`. */
  function NextKey(t: map<nat, Transaction>, from: nat): (k: Option<nat>)
    ensures k.Some? ==> IsNextKey(t, from, k.value)
    ensures k.None? ==> forall j: nat :: j in t ==> j < from
  {
    if j :| j in t && from <= j then
      NextKeyExists(t, from, j);
      var k :| IsNextKey(t, from, k);
      Some(k)
    else None
  }

  /** `ForAmount`: up to `amount` entries from `from` on, whatever their keys. */
  function ForAmount(t: map<nat, Transaction>, from: nat, amount: nat): (txs: seq<Transaction>)
    ensures |txs| <= amount
    decreases amount
  {
    if amount == 0 then []
    else
      var k := NextKey(t, from);
      if k.None? then [] else [t[k.value]] + ForAmount(t, k.value + 1, amount - 1)
  }

  /** Over a gapless stretch of ids the cursor returns exactly that stretch. */
  lemma {:induction false} ForAmountContiguous(t: map<nat, Transaction>, from: nat, amount: nat)
    requires forall i: nat :: from <= i < from + amount ==> i in t
    ensures |ForAmount(t, from, amount)| == amount
    ensures forall i: nat :: 0 <= i < amount ==> ForAmount(t, from, amount)[i] == t[from + i]
    decreases amount
  {
    if amount == 0 {
    } else {
      assert IsNextKey(t, from, from);
      var k := NextKey(t, from);
      assert k == Some(from);
      ForAmountContiguous(t, from + 1, amount - 1);
      forall i | 0 <= i < amount
        ensures ForAmount(t, from, amount)[i] == t[from + i]
      {
        if i > 0 {
          assert ForAmount(t, from, amount)[i] == ForAmount(t, from + 1, amount - 1)[i - 1];
        }
      }
    }
  }

  /** `writeTransactionsNewDeprecated`: consecutive puts from `base` on. */
  function WriteTransactions(t: map<nat, Transaction>, txs: seq<Transaction>, base: nat): map<nat, Transaction>
    decreases |txs|
  {
    if txs == [] then t
    else
      var last := |txs| - 1;
      WriteTransactions(t, txs[..last], base)[base + last := txs[last]]
  }

  lemma {:induction false} WrittenAt(t: map<nat, Transaction>, txs: seq<Transaction>, base: nat, id: nat)
    ensures var r := WriteTransactions(t, txs, base);
            if base <= id < base + |txs| then id in r && r[id] == txs[id - base]
            else (id in r <==> id in t) && (id in t ==> r[id] == t[id])
    decreases |txs|
  {
    if txs == [] {
    } else {
      WrittenAt(t, txs[..|txs| - 1], base, id);
    }
  }

  // ---------------------------------------------------------------------------------------------
  // One block

  function CanonicalKey(canonical: map<nat, Hash>, n: nat): BlockKey {
    (n, if n in canonical then canonical[n] else ZERO_HASH)
  }

  /** Delete the bodies of other blocks at this height. */
  function DropSideBodies(bodies: map<BlockKey, Body>, keep: BlockKey): map<BlockKey, Body> {
    map k | k in bodies && (k.0 != keep.0 || k == keep) :: bodies[k]
  }

  function ShiftedBody(b: Body, n: nat): Body {
    Body((b.baseTxId + n * 2) % TWO_64, (b.txAmount + 2) % TWO_32)
  }

  /** Shift one block: read its transactions, clear its first slot, write them after it, clear its
      last slot. */
  function ShiftTable(t: map<nat, Transaction>, b: Body, b': Body): map<nat, Transaction> {
    var txs := ForAmount(t, b.baseTxId, b.txAmount);
    WriteTransactions(t - {b'.baseTxId}, txs, b'.baseTxId + 1) - {b'.baseTxId + b'.txAmount - 1}
  }

  function RelocateBlock(canonical: map<nat, Hash>, db: Tables, n: nat): Tables {
    var key := CanonicalKey(canonical, n);
    if key !in db.bodies then db
    else
      var b := db.bodies[key];
      var b' := ShiftedBody(b, n);
      Tables(ShiftTable(db.ethTx, b, b'), DropSideBodies(db.bodies[key := b'], key))
  }

  /** The descending loop from block `top` to block 0. */
  function Migrate(canonical: map<nat, Hash>, db: Tables, top: int): Tables
    requires top >= -1
    decreases top
  {
    if top == -1 then db else Migrate(canonical, RelocateBlock(canonical, db, top), top - 1)
  }

  // ---------------------------------------------------------------------------------------------
  // Fresh databases

  function Amount(canonical: map<nat, Hash>, db: Tables, n: nat): nat {
    var key := CanonicalKey(canonical, n);
    if key in db.bodies then db.bodies[key].txAmount else 0
  }

  /** Transactions in the blocks before `n`. */
  function Start(canonical: map<nat, Hash>, db: Tables, n: nat): nat {
    if n == 0 then 0 else Start(canonical, db, n - 1) + Amount(canonical, db, n - 1)
  }

  /** First id of block `n` after the migration: two slots more for every earlier block. */
  function NewStart(canonical: map<nat, Hash>, db: Tables, n: nat): nat {
    Start(canonical, db, n) + 2 * n
  }

  predicate HasBody(canonical: map<nat, Hash>, db: Tables, n: nat) {
    CanonicalKey(canonical, n) in db.bodies
  }

  /** The body of block `n` numbers its transactions right after those of the blocks before it. */
  predicate Numbered(canonical: map<nat, Hash>, db: Tables, n: nat) {
    && HasBody(canonical, db, n)
    && db.bodies[CanonicalKey(canonical, n)].baseTxId == Start(canonical, db, n)
    && Amount(canonical, db, n) + 2 < TWO_32
  }

  /** Blocks 0 to count-1 have bodies that number their transactions without gaps from id 0, the
      table holds exactly those ids, and the enlarged ids and amounts fit their words. */
  ghost predicate Fresh(canonical: map<nat, Hash>, db: Tables, count: nat) {
    && (forall n: nat :: n < count ==> Numbered(canonical, db, n))
    && (forall n: nat :: n >= count ==> !HasBody(canonical, db, n))
    && (forall id: nat :: id in db.ethTx <==> id < Start(canonical, db, count))
    && NewStart(canonical, db, count) < TWO_64
  }

  /** Id `id` of `t` holds what was `shift` ids lower in `was`. */
  predicate MovedBy(t: map<nat, Transaction>, was: map<nat, Transaction>, id: nat, shift: nat) {
    shift <= id && id in t && id - shift in was && t[id] == was[id - shift]
  }

  /** In block `n` transactions move up by two slots per earlier block and one of its own. */
  predicate MovedIn(t: map<nat, Transaction>, was: map<nat, Transaction>, id: nat, n: nat) {
    MovedBy(t, was, id, 2 * n + 1)
  }

  predicate SameAt(t: map<nat, Transaction>, was: map<nat, Transaction>, id: nat) {
    (id in t <==> id in was) && (id in t ==> t[id] == was[id])
  }

  /** Block `n` sits in its new range of `t`: an empty slot, its transactions in order, an empty slot. */
  ghost predicate BlockMoved(canonical: map<nat, Hash>, db: Tables, t: map<nat, Transaction>, n: nat) {
    var first, amount := NewStart(canonical, db, n), Amount(canonical, db, n);
    && first !in t
    && (forall id: nat :: first < id <= first + amount ==> MovedIn(t, db.ethTx, id, n))
    && first + amount + 1 !in t
  }

  /** The table when blocks `k` and up have been moved: below their new ranges nothing has changed. */
  ghost predicate TableAt(canonical: map<nat, Hash>, db: Tables, t: map<nat, Transaction>, count: nat, k: nat) {
    && (forall id: nat :: id < NewStart(canonical, db, k) ==> SameAt(t, db.ethTx, id))
    && (forall n: nat :: k <= n < count ==> BlockMoved(canonical, db, t, n))
    && (forall id: nat :: id in t ==> id < NewStart(canonical, db, count))
  }

  predicate BodyKept(canonical: map<nat, Hash>, db: Tables, bodies: map<BlockKey, Body>, n: nat) {
    var key := CanonicalKey(canonical, n);
    key in bodies && key in db.bodies && bodies[key] == db.bodies[key]
  }

  predicate BodyShifted(canonical: map<nat, Hash>, db: Tables, bodies: map<BlockKey, Body>, n: nat) {
    var key := CanonicalKey(canonical, n);
    key in bodies && bodies[key] == Body(NewStart(canonical, db, n), Amount(canonical, db, n) + 2)
  }

  /** The bodies at that point: shifted from `k` on, with no side block left at those heights. */
  ghost predicate BodiesAt(canonical: map<nat, Hash>, db: Tables, bodies: map<BlockKey, Body>, count: nat, k: nat) {
    && (forall n: nat :: n < k ==> BodyKept(canonical, db, bodies, n))
    && (forall n: nat :: k <= n < count ==> BodyShifted(canonical, db, bodies, n))
    && (forall key :: key in bodies ==> key in db.bodies && (k <= key.0 < count ==> key == CanonicalKey(canonical, key.0)))
  }

  ghost predicate MigratedTo(canonical: map<nat, Hash>, db: Tables, cur: Tables, count: nat, k: nat) {
    TableAt(canonical, db, cur.ethTx, count, k) && BodiesAt(canonical, db, cur.bodies, count, k)
  }

  lemma {:induction false} StartMonotone(canonical: map<nat, Hash>, db: Tables, m: nat, n: nat)
    requires m <= n
    ensures Start(canonical, db, m) <= Start(canonical, db, n)
    decreases n
  {
    if m < n {
      StartMonotone(canonical, db, m, n - 1);
    }
  }

  /** What shifting a gapless block does to one id: fill the new range, touch nothing else. */
  predicate ShiftedAt(t: map<nat, Transaction>, r: map<nat, Transaction>, b: Body, first: nat, id: nat) {
    var last := first + b.txAmount + 1;
    if id == first || id == last then id !in r
    else if first < id < last then b.baseTxId <= first && MovedBy(r, t, id, first - b.baseTxId + 1)
    else SameAt(r, t, id)
  }

  lemma ShiftTableSpec(t: map<nat, Transaction>, b: Body, b': Body, id: nat)
    requires forall i: nat :: b.baseTxId <= i < b.baseTxId + b.txAmount ==> i in t
    requires b'.txAmount == b.txAmount + 2 && b.baseTxId <= b'.baseTxId
    ensures ShiftedAt(t, ShiftTable(t, b, b'), b, b'.baseTxId, id)
  {
    var txs := ForAmount(t, b.baseTxId, b.txAmount);
    ForAmountContiguous(t, b.baseTxId, b.txAmount);
    WrittenAt(t - {b'.baseTxId}, txs, b'.baseTxId + 1, id);
    if b'.baseTxId < id < b'.baseTxId + b.txAmount + 1 {
      assert txs[id - b'.baseTxId - 1] == t[b.baseTxId + (id - b'.baseTxId - 1)];
    }
  }

  /** Moving block `k` reads only untouched ids and writes only into its own new range. */
  lemma ShiftKeepsTable(canonical: map<nat, Hash>, db: Tables, t: map<nat, Transaction>, count: nat, k: nat)
    requires Fresh(canonical, db, count) && k < count && Numbered(canonical, db, k) && TableAt(canonical, db, t, count, k + 1)
    ensures var b' := Body(NewStart(canonical, db, k), Amount(canonical, db, k) + 2);
            TableAt(canonical, db, ShiftTable(t, db.bodies[CanonicalKey(canonical, k)], b'), count, k)
  {
    var b, b' := db.bodies[CanonicalKey(canonical, k)], Body(NewStart(canonical, db, k), Amount(canonical, db, k) + 2);
    var t' := ShiftTable(t, b, b');
    SourcePresent(canonical, db, t, count, k);
    forall id: nat
      ensures ShiftedAt(t, t', b, b'.baseTxId, id)
    {
      ShiftTableSpec(t, b, b', id);
    }
    AssembleTable(canonical, db, t, t', count, k);
  }

  /** The transactions of block `k` are still where they were. */
  lemma SourcePresent(canonical: map<nat, Hash>, db: Tables, t: map<nat, Transaction>, count: nat, k: nat)
    requires Fresh(canonical, db, count) && k < count && Numbered(canonical, db, k) && TableAt(canonical, db, t, count, k + 1)
    ensures forall id: nat :: Start(canonical, db, k) <= id < Start(canonical, db, k) + Amount(canonical, db, k) ==> id in t
  {
    StartMonotone(canonical, db, k + 1, count);
    forall id: nat | Start(canonical, db, k) <= id < Start(canonical, db, k) + Amount(canonical, db, k)
      ensures id in t
    {
      assert SameAt(t, db.ethTx, id);
    }
  }

  lemma AssembleTable(canonical: map<nat, Hash>, db: Tables, t: map<nat, Transaction>, t': map<nat, Transaction>, count: nat, k: nat)
    requires Fresh(canonical, db, count) && k < count && Numbered(canonical, db, k) && TableAt(canonical, db, t, count, k + 1)
    requires forall id: nat :: ShiftedAt(t, t', db.bodies[CanonicalKey(canonical, k)], NewStart(canonical, db, k), id)
    ensures TableAt(canonical, db, t', count, k)
  {
    MovedHere(canonical, db, t, t', count, k);
    forall n: nat | k < n < count
      ensures BlockMoved(canonical, db, t', n)
    {
      OthersKept(canonical, db, t, t', k, n);
    }
    forall id: nat
      ensures id < NewStart(canonical, db, k) ==> SameAt(t', db.ethTx, id)
      ensures id in t' ==> id < NewStart(canonical, db, count)
    {
      OutsideKept(canonical, db, t, t', count, k, id);
    }
  }

  lemma OutsideKept(canonical: map<nat, Hash>, db: Tables, t: map<nat, Transaction>, t': map<nat, Transaction>,
                    count: nat, k: nat, id: nat)
    requires Fresh(canonical, db, count) && k < count && Numbered(canonical, db, k) && TableAt(canonical, db, t, count, k + 1)
    requires ShiftedAt(t, t', db.bodies[CanonicalKey(canonical, k)], NewStart(canonical, db, k), id)
    ensures id < NewStart(canonical, db, k) ==> SameAt(t', db.ethTx, id)
    ensures id in t' ==> id < NewStart(canonical, db, count)
  {
    StartMonotone(canonical, db, k + 1, count);
    if id < NewStart(canonical, db, k) {
      assert SameAt(t, db.ethTx, id);
    }
  }

  lemma MovedHere(canonical: map<nat, Hash>, db: Tables, t: map<nat, Transaction>, t': map<nat, Transaction>, count: nat, k: nat)
    requires Fresh(canonical, db, count) && k < count && Numbered(canonical, db, k) && TableAt(canonical, db, t, count, k + 1)
    requires forall id: nat :: ShiftedAt(t, t', db.bodies[CanonicalKey(canonical, k)], NewStart(canonical, db, k), id)
    ensures BlockMoved(canonical, db, t', k)
  {
    var b, first := db.bodies[CanonicalKey(canonical, k)], NewStart(canonical, db, k);
    assert ShiftedAt(t, t', b, first, first) && ShiftedAt(t, t', b, first, first + b.txAmount + 1);
    forall id: nat | first < id <= first + b.txAmount
      ensures MovedIn(t', db.ethTx, id, k)
    {
      assert ShiftedAt(t, t', b, first, id);
      MovedSlot(canonical, db, t, t', count, k, id);
    }
  }

  lemma MovedSlot(canonical: map<nat, Hash>, db: Tables, t: map<nat, Transaction>, t': map<nat, Transaction>,
                  count: nat, k: nat, id: nat)
    requires Fresh(canonical, db, count) && k < count && Numbered(canonical, db, k) && TableAt(canonical, db, t, count, k + 1)
    requires NewStart(canonical, db, k) < id <= NewStart(canonical, db, k) + Amount(canonical, db, k)
    requires ShiftedAt(t, t', db.bodies[CanonicalKey(canonical, k)], NewStart(canonical, db, k), id)
    ensures MovedIn(t', db.ethTx, id, k)
  {
    var src := id - 2 * k - 1;
    assert src < NewStart(canonical, db, k + 1);
    assert SameAt(t, db.ethTx, src);
  }

  /** A higher block's range lies above the one just written. */
  lemma OthersKept(canonical: map<nat, Hash>, db: Tables, t: map<nat, Transaction>, t': map<nat, Transaction>, k: nat, n: nat)
    requires Numbered(canonical, db, k) && k < n && BlockMoved(canonical, db, t, n)
    requires forall id: nat :: ShiftedAt(t, t', db.bodies[CanonicalKey(canonical, k)], NewStart(canonical, db, k), id)
    ensures BlockMoved(canonical, db, t', n)
  {
    var b, first := db.bodies[CanonicalKey(canonical, k)], NewStart(canonical, db, k);
    StartMonotone(canonical, db, k + 1, n);
    forall id: nat | id >= NewStart(canonical, db, n)
      ensures SameAt(t', t, id)
    {
      assert ShiftedAt(t, t', b, first, id);
    }
    var lo, amount := NewStart(canonical, db, n), Amount(canonical, db, n);
    assert SameAt(t', t, lo) && SameAt(t', t, lo + amount + 1);
    forall id: nat | lo < id <= lo + amount
      ensures MovedIn(t', db.ethTx, id, n)
    {
      assert MovedIn(t, db.ethTx, id, n) && SameAt(t', t, id);
    }
  }

  lemma RelocateBodies(canonical: map<nat, Hash>, db: Tables, cur: Tables, count: nat, k: nat)
    requires Fresh(canonical, db, count) && k < count && Numbered(canonical, db, k)
    requires BodiesAt(canonical, db, cur.bodies, count, k + 1)
    ensures BodiesAt(canonical, db, RelocateBlock(canonical, cur, k).bodies, count, k)
  {
    var next := RelocateBlock(canonical, cur, k);
    ShiftedBodyFits(canonical, db, count, k);
    assert BodyKept(canonical, db, cur.bodies, k);
    assert BodyShifted(canonical, db, next.bodies, k);
    forall n: nat | n < count && n != k
      ensures n < k ==> BodyKept(canonical, db, next.bodies, n)
      ensures n > k ==> BodyShifted(canonical, db, next.bodies, n)
    {
      assert n < k ==> BodyKept(canonical, db, cur.bodies, n);
      assert n > k ==> BodyShifted(canonical, db, cur.bodies, n);
    }
  }

  /** The 64-bit and 32-bit arithmetic on a body does not wrap. */
  lemma ShiftedBodyFits(canonical: map<nat, Hash>, db: Tables, count: nat, k: nat)
    requires k < count && Numbered(canonical, db, k) && NewStart(canonical, db, count) < TWO_64
    ensures ShiftedBody(db.bodies[CanonicalKey(canonical, k)], k)
         == Body(NewStart(canonical, db, k), Amount(canonical, db, k) + 2)
  {
    StartMonotone(canonical, db, k, count);
  }

  /** One turn of the loop, for a block that has a body. */
  lemma RelocateStep(canonical: map<nat, Hash>, db: Tables, cur: Tables, count: nat, k: nat)
    requires Fresh(canonical, db, count) && k < count && MigratedTo(canonical, db, cur, count, k + 1)
    ensures MigratedTo(canonical, db, RelocateBlock(canonical, cur, k), count, k)
  {
    assert Numbered(canonical, db, k) && BodyKept(canonical, db, cur.bodies, k);
    ShiftedBodyFits(canonical, db, count, k);
    ShiftKeepsTable(canonical, db, cur.ethTx, count, k);
    RelocateBodies(canonical, db, cur, count, k);
  }

  /** Heights without a body are skipped. */
  lemma {:induction false} SkipMissing(canonical: map<nat, Hash>, db: Tables, count: nat, top: int)
    requires Fresh(canonical, db, count) && top >= count - 1
    ensures Migrate(canonical, db, top) == Migrate(canonical, db, count - 1)
    decreases top
  {
    if top > count - 1 {
      assert !HasBody(canonical, db, top);
      SkipMissing(canonical, db, count, top - 1);
    }
  }

  lemma {:induction false} MigrateFrom(canonical: map<nat, Hash>, db: Tables, cur: Tables, count: nat, k: nat)
    requires Fresh(canonical, db, count) && k <= count && MigratedTo(canonical, db, cur, count, k)
    ensures MigratedTo(canonical, db, Migrate(canonical, cur, k - 1), count, 0)
    decreases k
  {
    if k > 0 {
      RelocateStep(canonical, db, cur, count, k - 1);
      MigrateFrom(canonical, db, RelocateBlock(canonical, cur, k - 1), count, k - 1);
    }
  }

  /** The relocation theorem, for every fresh database and every starting height at or above the last
      block with a body: all blocks end up in their new ranges, all bodies are shifted, and the table
      holds nothing at or beyond the end of the last range. */
  lemma FreshRunRelocates(canonical: map<nat, Hash>, db: Tables, count: nat, top: int)
    requires Fresh(canonical, db, count) && top >= count - 1
    ensures MigratedTo(canonical, db, Migrate(canonical, db, top), count, 0)
  {
    SkipMissing(canonical, db, count, top);
    assert forall id: nat :: SameAt(db.ethTx, db.ethTx, id);
    assert forall n: nat :: n < count ==> Numbered(canonical, db, n);
    forall n: nat | n < count
      ensures BodyKept(canonical, db, db.bodies, n)
    {
      assert Numbered(canonical, db, n);
    }
    MigrateFrom(canonical, db, db, count, count);
  }

  /** The new ranges tile the id space: every id below the end lies in the range of one block. */
  lemma {:induction false} RangesTile(canonical: map<nat, Hash>, db: Tables, count: nat, id: nat) returns (n: nat)
    requires id < NewStart(canonical, db, count)
    ensures n < count && NewStart(canonical, db, n) <= id < NewStart(canonical, db, n + 1)
    ensures forall m: nat :: m < count && NewStart(canonical, db, m) <= id < NewStart(canonical, db, m + 1) ==> m == n
    decreases count
  {
    if id >= NewStart(canonical, db, count - 1) {
      n := count - 1;
    } else {
      n := RangesTile(canonical, db, count - 1, id);
    }
    forall m: nat | m < count && NewStart(canonical, db, m) <= id < NewStart(canonical, db, m + 1)
      ensures m == n
    {
      if m < n {
        StartMonotone(canonical, db, m + 1, n);
      }
    }
  }

  /** No stale id survives: every id of the migrated table is a transaction slot of exactly one block
      and holds that block's transaction. */
  lemma NoStaleId(canonical: map<nat, Hash>, db: Tables, count: nat, top: int, id: nat) returns (n: nat)
    requires Fresh(canonical, db, count) && top >= count - 1 && id in Migrate(canonical, db, top).ethTx
    ensures n < count
    ensures NewStart(canonical, db, n) < id < NewStart(canonical, db, n + 1) - 1
    ensures MovedIn(Migrate(canonical, db, top).ethTx, db.ethTx, id, n)
  {
    FreshRunRelocates(canonical, db, count, top);
    n := RangesTile(canonical, db, count, id);
    assert BlockMoved(canonical, db, Migrate(canonical, db, top).ethTx, n);
  }

  // ---------------------------------------------------------------------------------------------
  // Resumed runs

  /** Lower blocks never touch the body of a higher one. */
  lemma {:induction false} LowerBlocksKeepBody(canonical: map<nat, Hash>, cur: Tables, top: int, key: BlockKey)
    requires top >= -1 && key in cur.bodies && key.0 > top
    ensures key in Migrate(canonical, cur, top).bodies && Migrate(canonical, cur, top).bodies[key] == cur.bodies[key]
    decreases top
  {
    if top > -1 {
      LowerBlocksKeepBody(canonical, RelocateBlock(canonical, cur, top), top - 1, key);
    }
  }

  /** The recorded progress is the block that was just moved. Continuing below it completes the
      migration; restarting at it, as the code does, moves that block a second time, so its body
      never ends up as a fresh run leaves it. */
  lemma ResumeMovesTwice(canonical: map<nat, Hash>, db: Tables, cur: Tables, count: nat, p: nat)
    requires Fresh(canonical, db, count) && p < count
    requires TableAt(canonical, db, cur.ethTx, count, p) && BodiesAt(canonical, db, cur.bodies, count, p)
    ensures TableAt(canonical, db, Migrate(canonical, cur, p - 1).ethTx, count, 0)
    ensures BodiesAt(canonical, db, Migrate(canonical, cur, p - 1).bodies, count, 0)
    ensures !BodiesAt(canonical, db, Migrate(canonical, cur, p).bodies, count, 0)
  {
    MigrateFrom(canonical, db, cur, count, p);
    var key, again := CanonicalKey(canonical, p), RelocateBlock(canonical, cur, p);
    assert Numbered(canonical, db, p) && BodyShifted(canonical, db, cur.bodies, p);
    LowerBlocksKeepBody(canonical, again, p - 1, key);
    assert again.bodies[key].txAmount != Amount(canonical, db, p) + 2;
    assert !BodyShifted(canonical, db, Migrate(canonical, cur, p).bodies, p);
  }

  // ---------------------------------------------------------------------------------------------
  // The EthTx sequence

  /** The last canonical height, if any. */
  ghost predicate IsLast(canonical: map<nat, Hash>, last: Option<nat>) {
    match last
    case None => canonical == map[]
    case Some(n) => n in canonical && forall k: nat :: k in canonical ==> k <= n
  }

  /** Wrapping increment by the wrapped distance to one past the body of the last canonical header;
      without such a header or body the sequence is left alone. */
  function FinalSequence(canonical: map<nat, Hash>, bodies: map<BlockKey, Body>, last: Option<nat>, current: nat): nat {
    var increment :=
      if last.Some? && CanonicalKey(canonical, last.value) in bodies then
        var b := bodies[CanonicalKey(canonical, last.value)];
        (b.baseTxId + b.txAmount - current) % TWO_64
      else 0;
    (current + increment) % TWO_64
  }

  lemma WrapDistance(a: nat, b: nat)
    requires a < TWO_64 && b < TWO_64
    ensures (a + (b - a) % TWO_64) % TWO_64 == b
  {
  }

  /** After a fresh run, from any earlier value, the sequence is one past the last range if and only if
      the last canonical header is that of the last block with a body, or there is none or it is above
      it and the sequence had that value already. */
  lemma SequenceEndsPastLastRange(canonical: map<nat, Hash>, db: Tables, count: nat, top: int, last: Option<nat>, current: nat)
    requires Fresh(canonical, db, count) && top >= count - 1 && current < TWO_64
    ensures FinalSequence(canonical, Migrate(canonical, db, top).bodies, last, current) == NewStart(canonical, db, count)
            <==> || (last.Some? && last.value == count - 1)
                 || ((last.None? || last.value >= count) && current == NewStart(canonical, db, count))
  {
    var fin := Migrate(canonical, db, top);
    FreshRunRelocates(canonical, db, count, top);
    if last.Some? && last.value < count {
      assert BodyShifted(canonical, db, fin.bodies, last.value);
      SequenceAt(canonical, db, fin.bodies, count, last.value, current);
      NewStartStrict(canonical, db, last.value + 1, count);
    } else {
      assert last.Some? ==> !HasBody(canonical, db, last.value);
      SequenceKept(canonical, fin.bodies, last, current);
    }
  }

  lemma NewStartStrict(canonical: map<nat, Hash>, db: Tables, m: nat, n: nat)
    requires m <= n
    ensures NewStart(canonical, db, m) == NewStart(canonical, db, n) <==> m == n
  {
    StartMonotone(canonical, db, m, n);
  }

  lemma SequenceKept(canonical: map<nat, Hash>, bodies: map<BlockKey, Body>, last: Option<nat>, current: nat)
    requires current < TWO_64 && (last.Some? ==> CanonicalKey(canonical, last.value) !in bodies)
    ensures FinalSequence(canonical, bodies, last, current) == current
  {
  }

  lemma SequenceAt(canonical: map<nat, Hash>, db: Tables, bodies: map<BlockKey, Body>, count: nat, n: nat, current: nat)
    requires n < count && NewStart(canonical, db, count) < TWO_64 && BodyShifted(canonical, db, bodies, n)
    requires current < TWO_64
    ensures FinalSequence(canonical, bodies, Some(n), current) == NewStart(canonical, db, n + 1)
  {
    StartMonotone(canonical, db, n + 1, count);
    WrapDistance(current, NewStart(canonical, db, n + 1));
  }

  // ---------------------------------------------------------------------------------------------
  // The migration in place

  class Database {
    const canonical: map<nat, Hash>
    var ethTx: map<nat, Transaction>
    var bodies: map<BlockKey, Body>
    var ethTxSequence: nat
    var nonCanonicalSequence: nat

    ghost function Snapshot(): Tables
      reads this
    {
      Tables(ethTx, bodies)
    }

    constructor (canonical: map<nat, Hash>, ethTx: map<nat, Transaction>, bodies: map<BlockKey, Body>,
                 ethTxSequence: nat, nonCanonicalSequence: nat)
      ensures this.canonical == canonical && Snapshot() == Tables(ethTx, bodies)
      ensures this.ethTxSequence == ethTxSequence && this.nonCanonicalSequence == nonCanonicalSequence
    {
      this.canonical, this.ethTx, this.bodies := canonical, ethTx, bodies;
      this.ethTxSequence, this.nonCanonicalSequence := ethTxSequence, nonCanonicalSequence;
    }

    /** `canonicalTransactions`: a cursor walk. */
    method CanonicalTransactions(base: nat, amount: nat) returns (txs: seq<Transaction>)
      ensures txs == ForAmount(ethTx, base, amount)
    {
      txs := [];
      var left: nat, k := amount, NextKey(ethTx, base);
      ghost var from := base;
      while k.Some? && left > 0
        invariant left <= amount && k == NextKey(ethTx, from)
        invariant txs + ForAmount(ethTx, from, left) == ForAmount(ethTx, base, amount)
        decreases left
      {
        txs := txs + [ethTx[k.value]];
        left := left - 1;
        from := k.value + 1;
        k := NextKey(ethTx, k.value + 1);
      }
    }

    method WriteAll(txs: seq<Transaction>, base: nat)
      modifies `ethTx
      ensures ethTx == WriteTransactions(old(ethTx), txs, base)
    {
      for i := 0 to |txs|
        invariant ethTx == WriteTransactions(old(ethTx), txs[..i], base)
      {
        assert txs[..i + 1][..i] == txs[..i];
        ethTx := ethTx[base + i := txs[i]];
      }
      assert txs[..|txs|] == txs;
    }

    /** Delete the side bodies found under the height prefix, in whatever order they come. */
    method DeleteSideBodies(keep: BlockKey)
      modifies `bodies
      ensures bodies == DropSideBodies(old(bodies), keep)
    {
      var todo := set k | k in bodies && k.0 == keep.0 && k != keep;
      while todo != {}
        invariant forall k :: k in todo ==> k in bodies && k.0 == keep.0 && k != keep
        invariant forall k :: k in old(bodies) && k !in todo && (k.0 != keep.0 || k == keep) ==> k in bodies
        invariant forall k :: k in bodies ==> k in old(bodies) && bodies[k] == old(bodies)[k]
                                              && (k in todo || k.0 != keep.0 || k == keep)
        decreases |todo|
      {
        var k :| k in todo;
        todo := todo - {k};
        bodies := bodies - {k};
      }
    }

    /** Read the block's transactions, clear its first new slot, write them after it, clear the last. */
    method Shift(b: Body, b': Body)
      modifies `ethTx
      ensures ethTx == ShiftTable(old(ethTx), b, b')
    {
      var txs := CanonicalTransactions(b.baseTxId, b.txAmount);
      ethTx := ethTx - {b'.baseTxId};
      WriteAll(txs, b'.baseTxId + 1);
      ethTx := ethTx - {b'.baseTxId + b'.txAmount - 1};
    }

    /** The body of the loop for one height. */
    method Relocate(n: nat)
      modifies `ethTx, `bodies
      ensures Snapshot() == RelocateBlock(canonical, old(Snapshot()), n)
    {
      var key := CanonicalKey(canonical, n);
      if key !in bodies {
        return;
      }
      var b := bodies[key];
      var b' := Body((b.baseTxId + n * 2) % TWO_64, (b.txAmount + 2) % TWO_32);
      bodies := bodies[key := b'];
      Shift(b, b');
      DeleteSideBodies(key);
    }

    /** The last entry of the canonical table. */
    method LastCanonical() returns (last: Option<nat>)
      ensures IsLast(canonical, last)
    {
      last := None;
      var todo := canonical.Keys;
      while todo != {}
        invariant todo <= canonical.Keys
        invariant last.None? ==> todo == canonical.Keys
        invariant last.Some? ==> last.value in canonical && forall k: nat :: k in canonical && k !in todo ==> k <= last.value
      {
        var n :| n in todo;
        todo := todo - {n};
        if last.None? || n > last.value {
          last := Some(n);
        }
      }
      assert last.None? ==> canonical.Keys == {};
    }

    /** `TxsBeginEnd.Up`. */
    method Up(bodiesProgress: nat, progress: Option<nat>) returns (ghost last: Option<nat>)
      requires nonCanonicalSequence < TWO_64
      modifies this
      ensures IsLast(canonical, last)
      ensures var latest := if progress.Some? then progress.value else bodiesProgress + 1;
              && Snapshot() == Migrate(canonical, old(Snapshot()), latest)
              && ethTxSequence == FinalSequence(canonical, bodies, last, old(ethTxSequence))
      ensures nonCanonicalSequence == 0
    {
      var latest := if progress.Some? then progress.value else bodiesProgress + 1;
      var i: int := latest;
      while i >= 0
        invariant -1 <= i <= latest
        invariant Migrate(canonical, Snapshot(), i) == Migrate(canonical, old(Snapshot()), latest)
        invariant ethTxSequence == old(ethTxSequence) && nonCanonicalSequence == old(nonCanonicalSequence)
      {
        Relocate(i);
        i := i - 1;
      }
      var v: int := nonCanonicalSequence;
      nonCanonicalSequence := (v + (-v) % TWO_64) % TWO_64;
      var header := LastCanonical();
      ethTxSequence := FinalSequence(canonical, bodies, header, ethTxSequence);
      last := header;
    }
  }

  /** A fresh run in place: the theorems about `Migrate` and the sequence at the level of the database. */
  method RunFreshMigration(db: Database, count: nat, bodiesProgress: nat) returns (ghost last: Option<nat>)
    requires Fresh(db.canonical, db.Snapshot(), count) && count <= bodiesProgress + 2
    requires db.ethTxSequence < TWO_64 && db.nonCanonicalSequence < TWO_64
    modifies db
    ensures TableAt(db.canonical, old(db.Snapshot()), db.ethTx, count, 0)
    ensures BodiesAt(db.canonical, old(db.Snapshot()), db.bodies, count, 0)
    ensures db.nonCanonicalSequence == 0
    ensures IsLast(db.canonical, last)
    ensures var end := NewStart(db.canonical, old(db.Snapshot()), count);
            db.ethTxSequence == end <==>
              || (last.Some? && last.value == count - 1)
              || ((last.None? || last.value >= count) && old(db.ethTxSequence) == end)
  {
    FreshRunRelocates(db.canonical, db.Snapshot(), count, bodiesProgress + 1);
    ghost var before, current := db.Snapshot(), db.ethTxSequence;
    last := db.Up(bodiesProgress, None);
    SequenceEndsPastLastRange(db.canonical, before, count, bodiesProgress + 1, last, current);
  }
}
