/** One block group: how much of a batch it takes, and when its counters reach the database. */
module Groups {
  const MAX_GROUP_SIZE: nat := 29500 * 0x10_0000
  const MAX_GROUP_BLOCKS: nat := 20 * 0x10_0000
  const MAX_ENTRY_LEN: nat := 0x100_0000          // what a group's log accepts

  /** A block as a group sees it: which one, and how many bytes of data. */
  datatype Blk = Blk(id: nat, size: nat)

  function Total(b: seq<Blk>): nat { if b == [] then 0 else Total(b[..|b| - 1]) + b[|b| - 1].size }

  ghost predicate AllFit(b: seq<Blk>) { forall i :: 0 <= i < |b| ==> b[i].size <= MAX_ENTRY_LEN }

  lemma {:induction false} TotalConcat(a: seq<Blk>, b: seq<Blk>)
    ensures Total(a + b) == Total(a) + Total(b)
  {
    if b == [] {
      assert a + b == a;
    } else {
      var n := |b| - 1;
      TotalConcat(a, b[..n]);
      assert (a + b)[..|a + b| - 1] == a + b[..n];
    }
  }

  /** How many leading blocks fit the available bytes and the block cap. */
  ghost predicate TakesLongest(b: seq<Blk>, avail: int, committedBlocks: int, n: nat) {
    && n <= |b|
    && (n > 0 ==> Total(b[..n]) <= avail && committedBlocks + n <= MAX_GROUP_BLOCKS)
    && (n < |b| ==> Total(b[..n + 1]) > avail || committedBlocks + n >= MAX_GROUP_BLOCKS)
  }

  lemma {:induction false} TotalMonotone(b: seq<Blk>, i: nat, j: nat)
    requires i <= j <= |b|
    ensures Total(b[..i]) <= Total(b[..j])
  {
    assert b[..j] == b[..i] + b[i..j];
    TotalConcat(b[..i], b[i..j]);
  }

  /** The count is determined: no longer prefix fits. */
  lemma {:induction false} LongestIsUnique(b: seq<Blk>, avail: int, committedBlocks: int, m: nat, n: nat)
    requires TakesLongest(b, avail, committedBlocks, m) && TakesLongest(b, avail, committedBlocks, n)
    ensures m == n
  {
    if m < n {
      TotalMonotone(b, m + 1, n);
    } else if n < m {
      TotalMonotone(b, n + 1, m);
    }
  }

  /** The cap on blocks only looks at committed ones. */
  method FitCount(b: seq<Blk>, availSpace: int, committedBlocks: int) returns (writeBlocks: nat, writeSize: nat)
    ensures TakesLongest(b, availSpace, committedBlocks, writeBlocks) && writeSize == Total(b[..writeBlocks])
  {
    writeBlocks, writeSize := 0, 0;
    assert b[..0] == [];
    while writeBlocks < |b|
      invariant writeBlocks <= |b| && writeSize == Total(b[..writeBlocks])
      invariant writeBlocks > 0 ==> writeSize <= availSpace && committedBlocks + writeBlocks <= MAX_GROUP_BLOCKS
    {
      assert b[..writeBlocks + 1][..writeBlocks] == b[..writeBlocks];
      if b[writeBlocks].size + writeSize > availSpace || committedBlocks + writeBlocks >= MAX_GROUP_BLOCKS {
        break;
      }
      writeSize := writeSize + b[writeBlocks].size;
      writeBlocks := writeBlocks + 1;
    }
  }

  function Empties(n: nat): seq<Blk> { seq(n, i => Blk(0, 0)) }

  lemma {:induction false} EmptiesTotal(n: nat, k: nat)
    requires k <= n
    ensures Total(Empties(n)[..k]) == 0
  {
    if k > 0 {
      EmptiesTotal(n, k - 1);
      assert Empties(n)[..k][..k - 1] == Empties(n)[..k - 1];
    }
  }

  ghost predicate BlockCapHolds(avail: int, committedBlocks: nat, inflightBlocks: nat) {
    forall b, n :: TakesLongest(b, avail, committedBlocks, n) && n > 0 ==>
      committedBlocks + inflightBlocks + n <= MAX_GROUP_BLOCKS
  }

  /** A put keeps the group within its block cap, whatever the batch, exactly when nothing is in
      flight (or the group is already at its cap). */
  lemma {:induction false} BlockCapIffSynced(avail: nat, committedBlocks: nat, inflightBlocks: nat)
    ensures BlockCapHolds(avail, committedBlocks, inflightBlocks) <==>
              inflightBlocks == 0 || committedBlocks >= MAX_GROUP_BLOCKS
  {
    if inflightBlocks > 0 && committedBlocks < MAX_GROUP_BLOCKS {
      var n := MAX_GROUP_BLOCKS - committedBlocks;
      var b := Empties(n);
      EmptiesTotal(n, n);
      assert b[..n] == b;
      assert TakesLongest(b, avail, committedBlocks, n);
    }
  }

  /** A group that holds nothing takes the first block of a batch exactly when it is no larger
      than a group. */
  lemma {:induction false} EmptyGroupTakes(b: seq<Blk>, n: nat)
    requires b != [] && TakesLongest(b, MAX_GROUP_SIZE, 0, n)
    ensures n > 0 <==> b[0].size <= MAX_GROUP_SIZE
  {
    assert b[..1] == [b[0]] && b[..1][..0] == [];
    assert Total(b[..1]) == b[0].size;
    if n > 0 {
      TotalMonotone(b, 1, n);
    }
  }

  datatype GroupState = Writable | Full | Later

  datatype Row = Row(blocks: nat, bytes: nat, state: GroupState)

  class RbsDb {
    var rows: map<int, Row>
    var nextId: nat

    ghost predicate Valid()
      reads this
    {
      forall k :: k in rows ==> 0 <= k < nextId && rows[k].bytes <= MAX_GROUP_SIZE
    }

    method SetGroupHead(id: int, state: GroupState, commBlk: nat, commSz: nat)
      requires id in rows
      modifies this`rows
      ensures rows == old(rows)[id := Row(commBlk, commSz, state)]
    {
      rows := rows[id := Row(commBlk, commSz, state)];
    }

    method CreateGroup() returns (id: int)
      requires Valid()
      modifies this
      ensures Valid() && id !in old(rows) && rows == old(rows)[id := Row(0, 0, Writable)]
    {
      id := nextId;
      nextId := nextId + 1;
      rows := rows[id := Row(0, 0, Writable)];
    }
  }

  class Group {
    const db: RbsDb
    const id: int
    var state: GroupState
    var inflightBlocks: nat
    var inflightSize: nat
    var committedBlocks: nat
    var committedSize: nat
    var log: seq<Blk>       // what this process handed to the group's log, known hashes included
    var head: nat           // how much of that the last Commit covers
    var readOnly: bool      // the log has been closed for writing

    constructor (db: RbsDb, id: int, committedBlocks: nat, committedSize: nat, state: GroupState)
      ensures this.db == db && this.id == id && this.state == state && log == [] && !readOnly
      ensures inflightBlocks == 0 && inflightSize == 0 && head == 0
      ensures this.committedBlocks == committedBlocks && this.committedSize == committedSize
    {
      head := 0;
      this.db, this.id, this.state, log, readOnly := db, id, state, [], false;
      inflightBlocks, inflightSize := 0, 0;
      this.committedBlocks, this.committedSize := committedBlocks, committedSize;
    }

    /** The group is within its size, and in flight is what was put since the last commit. */
    ghost predicate Valid()
      reads this
    {
      && committedSize + inflightSize <= MAX_GROUP_SIZE
      && head <= |log| && inflightBlocks == |log| - head && inflightSize == Total(log[head..])
      && (state != Writable ==> inflightBlocks == 0 && inflightSize == 0)
    }

    /** CarLog.Put as the group sees it: a block over the limit ends it, after the ones before it. */
    method LogPut(b: seq<Blk>) returns (ok: bool)
      modifies this`log
      ensures ok <==> AllFit(b)
      ensures ok ==> log == old(log) + b
      ensures !ok ==> exists at :: 0 <= at < |b| && StopsAt(b, at) && log == old(log) + b[..at]
    {
      var i := 0;
      assert b[..|b|] == b && old(log) + b[..0] == old(log);
      while i < |b|
        invariant 0 <= i <= |b| && AllFit(b[..i]) && log == old(log) + b[..i]
      {
        if MAX_ENTRY_LEN < b[i].size {
          assert StopsAt(b, i);
          return false;
        }
        assert b[..i + 1] == b[..i] + [b[i]];
        log := log + [b[i]];
        i := i + 1;
      }
      return true;
    }

    /** The first block over the limit. */
    static ghost predicate StopsAt(b: seq<Blk>, at: nat)
      requires at < |b|
    {
      AllFit(b[..at]) && b[at].size > MAX_ENTRY_LEN
    }

    /** Take as much of the batch as fits. A batch that does not fit fills the group: it is synced
        and its log becomes read-only. If one of the blocks taken is over the log's limit the put fails:
        the counters then include what the log never got, and a group marked full is neither synced nor
        closed. */
    method Put(b: seq<Blk>) returns (n: nat, ok: bool, ghost taken: nat)
      requires Valid() && id in db.rows
      modifies this, db`rows
      ensures n == (if ok then taken else 0) && taken <= |b| && (old(db.Valid()) ==> db.Valid())
      ensures ok <==> AllFit(b[..taken])
      ensures ok ==> Valid()
      ensures b == [] || old(state) != Writable ==>
                && taken == 0 && log == old(log) && state == old(state) && db.rows == old(db.rows)
                && committedBlocks == old(committedBlocks) && committedSize == old(committedSize) && head == old(head)
      ensures b != [] && old(state) == Writable ==>
                && TakesLongest(b, MAX_GROUP_SIZE - old(committedSize) - old(inflightSize), old(committedBlocks), taken)
                && state == (if taken < |b| then Full else Writable)
                && committedSize + inflightSize == old(committedSize + inflightSize) + Total(b[..taken])
                && committedBlocks + inflightBlocks == old(committedBlocks + inflightBlocks) + taken
      ensures b != [] && old(state) == Writable && ok ==>
                && log == old(log) + b[..n] && readOnly == (old(readOnly) || n < |b|)
                && (n < |b| ==> db.rows == old(db.rows)[id := Row(committedBlocks, committedSize, Full)])
                && (n == |b| ==>
                      db.rows == old(db.rows) && Uncommitted(old(committedBlocks), old(committedSize), old(head)))
      ensures !ok ==>
                && db.rows == old(db.rows) && readOnly == old(readOnly)
                && Uncommitted(old(committedBlocks), old(committedSize), old(head))
                && exists at :: 0 <= at < taken && StopsAt(b[..taken], at) && log == old(log) + b[..taken][..at]
    {
      taken := 0;
      if |b| == 0 {
        return 0, true, 0;
      }
      if state != Writable {
        return 0, true, 0;
      }
      hide TakesLongest, Total, RbsDb.Valid;
      var writeBlocks := Reserve(b);
      taken := writeBlocks;
      ghost var was := log;
      ok := LogPut(b[..writeBlocks]);
      if !ok {
        return 0, false, taken;
      }
      InFlight(was, b[..writeBlocks], head);
      if state == Full {
        Sync();
        readOnly := true;
      }
      return writeBlocks, true, taken;
    }

    /** What is in flight once more blocks are in the log. */
    static lemma {:induction false} InFlight(was: seq<Blk>, more: seq<Blk>, head: nat)
      requires head <= |was|
      ensures Total((was + more)[head..]) == Total(was[head..]) + Total(more)
    {
      TotalConcat(was[head..], more);
      assert (was + more)[head..] == was[head..] + more;
    }

    /** Count the blocks that fit as in flight. */
    method Reserve(b: seq<Blk>) returns (taken: nat)
      requires Valid() && b != [] && state == Writable
      modifies this`state, this`inflightBlocks, this`inflightSize
      ensures TakesLongest(b, MAX_GROUP_SIZE - committedSize - old(inflightSize), committedBlocks, taken)
      ensures taken <= |b| && state == (if taken < |b| then Full else Writable)
      ensures inflightBlocks == old(inflightBlocks) + taken && inflightSize == old(inflightSize) + Total(b[..taken])
      ensures committedSize + inflightSize <= MAX_GROUP_SIZE
    {
      var availSpace := MAX_GROUP_SIZE - committedSize - inflightSize;
      var writeBlocks, writeSize := FitCount(b, availSpace, committedBlocks);
      if writeBlocks < |b| {
        state := Full;
      }
      inflightBlocks := inflightBlocks + writeBlocks;
      inflightSize := inflightSize + writeSize;
      assert writeBlocks == 0 ==> b[..writeBlocks] == [];
      return writeBlocks;
    }

    ghost predicate Uncommitted(blocks: nat, size: nat, at: nat)
      reads this
    {
      committedBlocks == blocks && committedSize == size && head == at
    }

    /** Commit the log and move the in-flight counters into the committed ones. */
    method Sync()
      requires id in db.rows && committedSize + inflightSize <= MAX_GROUP_SIZE
      modifies this`inflightBlocks, this`inflightSize, this`committedBlocks, this`committedSize, this`head, db`rows
      ensures head == |log|
      ensures Valid() && inflightBlocks == 0 && inflightSize == 0 && (old(db.Valid()) ==> db.Valid())
      ensures committedBlocks == old(committedBlocks + inflightBlocks)
      ensures committedSize == old(committedSize + inflightSize)
      ensures db.rows == old(db.rows)[id := Row(committedBlocks, committedSize, state)]
    {
      committedBlocks := committedBlocks + inflightBlocks;
      committedSize := committedSize + inflightSize;
      inflightBlocks := 0;
      inflightSize := 0;
      head := |log|;
      db.SetGroupHead(id, state, committedBlocks, committedSize);
    }
  }
}
