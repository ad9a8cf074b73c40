/** ribBatch.Put and Flush: a batch is split over writable groups and everything it put ends up
    committed. */
module GroupBatch {
  import opened Bytes
  import opened Groups

  /** One Group.Put of a batch: the group and the blocks it took. */
  datatype Slice = Slice(group: int, blocks: seq<Blk>)

  function Joined(s: seq<Slice>): seq<Blk> { if s == [] then [] else Joined(s[..|s| - 1]) + s[|s| - 1].blocks }

  /** The groups of these puts, in order. */
  function GroupsOf(s: seq<Slice>): (g: seq<int>)
    ensures |g| == |s| && forall i :: 0 <= i < |s| ==> g[i] == s[i].group
  {
    seq(|s|, i requires 0 <= i < |s| => s[i].group)
  }

  /** The finalization queue after these puts: all of them have filled their groups, except perhaps the last. */
  function Queue(tasks: seq<int>, s: seq<Slice>, lastToo: bool): seq<int> {
    tasks + GroupsOf(if lastToo || s == [] then s else s[..|s| - 1])
  }

  /** What a group received, in order. */
  function For(s: seq<Slice>, k: int): seq<Blk> {
    if s == [] then []
    else
      var last := s[|s| - 1];
      For(s[..|s| - 1], k) + if last.group == k then last.blocks else []
  }

  lemma {:induction false} JoinedSnoc(s: seq<Slice>, x: Slice)
    ensures Joined(s + [x]) == Joined(s) + x.blocks
    ensures forall k :: For(s + [x], k) == For(s, k) + if x.group == k then x.blocks else []
  {
    assert (s + [x])[..|s|] == s;
  }

  /** Rows of groups that still take blocks. */
  function WritableRows(rows: map<int, Row>): set<int> { set k | k in rows && rows[k].state == Writable }

  /** Some element, if there is one (ranging over a map, a query's first row). */
  method AnyOf(s: set<int>) returns (o: Option<int>)
    ensures o.None? <==> s == {}
    ensures o.Some? ==> o.value in s
  {
    if x :| x in s {
      return Some(x);
    }
    assert forall x :: x !in s;
    return None;
  }

  /** The group that was chosen for a put, from the rows before and after it: a writable one if there was
      one, and otherwise a new one. */
  ghost predicate RowsAfter(k: int, was: map<int, Row>, rows: map<int, Row>) {
    if WritableRows(was) != {} then
      k in WritableRows(was) && rows.Keys == was.Keys && WritableRows(rows) <= WritableRows(was)
    else
      k !in was && rows.Keys == was.Keys + {k} && WritableRows(rows) <= {k}
  }

  function Most(a: nat, b: nat): nat { if a < b then b else a }

  lemma {:induction false} RowsBounded(k: int, was: map<int, Row>, rows: map<int, Row>)
    requires RowsAfter(k, was, rows)
    ensures |WritableRows(rows)| <= Most(1, |WritableRows(was)|)
  {
    hide WritableRows;
    if WritableRows(was) != {} {
      Fewer(WritableRows(rows), WritableRows(was));
    } else {
      Fewer(WritableRows(rows), {k});
    }
  }

  lemma {:induction false} Fewer(a: set<int>, b: set<int>)
    requires a <= b
    ensures |a| <= |b|
  {
    assert b == a + (b - a);
  }

  class Rbs {
    const db: RbsDb
    var openGroups: map<int, Group>
    var writableGroups: map<int, Group>
    var tasks: seq<int>             // groups queued for finalization
    ghost var journal: seq<Slice>   // every Group.Put of this process

    constructor (db: RbsDb)
      requires db.Valid()
      ensures Valid() && this.db == db && openGroups == map[] && journal == []
    {
      this.db, openGroups, writableGroups, tasks, journal := db, map[], map[], [], [];
    }

    /** An open group: sized within its limit, its log what it was given, and writable exactly when
        it is among the writable groups and so recorded. */
    ghost predicate GroupOk(k: int)
      requires k in openGroups
      reads this, db, openGroups[k]
    {
      var g := openGroups[k];
      && g.id == k && g.db == db && g.Valid() && k in db.rows
      && g.log == For(journal, k)
      && db.rows[k] == Row(g.committedBlocks, g.committedSize, g.state)
      && (k in writableGroups <==> g.state == Writable)
      && (k in writableGroups ==> writableGroups[k] == g)
    }

    ghost predicate Valid()
      reads this, db, openGroups.Values
    {
      && db.Valid()
      && (forall k :: k in openGroups ==> GroupOk(k))
      && writableGroups.Keys <= openGroups.Keys
      && (forall k :: k !in openGroups ==> For(journal, k) == [])
    }

    /** openGroup: load a group from its row. */
    method OpenGroup(k: int) returns (g: Group)
      requires Valid() && k in db.rows && k !in openGroups
      modifies this
      ensures Valid() && fresh(g) && journal == old(journal) && tasks == old(tasks)
      ensures openGroups == old(openGroups)[k := g]
      ensures Row(g.committedBlocks, g.committedSize, g.state) == db.rows[k]
      ensures g.inflightSize == 0 && g.inflightBlocks == 0
    {
      var row := db.rows[k];
      g := new Group(db, k, row.blocks, row.bytes, row.state);
      if row.state == Writable {
        writableGroups := writableGroups[k := g];
      }
      openGroups := openGroups[k := g];
      forall x | x in openGroups
        ensures GroupOk(x)
      {
        assert x != k ==> x in old(openGroups) && old(GroupOk(x));
      }
    }

    /** Everything but the group k, which has just been written. */
    ghost predicate OthersOk(k: int)
      reads this, db, openGroups.Values
    {
      && db.Valid()
      && (forall x :: x in openGroups && x != k ==> GroupOk(x))
      && writableGroups.Keys <= openGroups.Keys
      && (forall x :: x !in openGroups ==> For(journal, x) == [])
    }

    /** The group k just after a put, still among the writable groups. */
    ghost predicate JustPut(k: int)
      reads this, db, openGroups.Values
    {
      && k in openGroups && k in writableGroups
      && var g := openGroups[k];
         && g.id == k && g.db == db && g.Valid() && k in db.rows && g.log == For(journal, k)
         && db.rows[k] == Row(g.committedBlocks, g.committedSize, g.state) && writableGroups[k] == g
    }

    method Give(k: int, b: seq<Blk>) returns (wrote: nat)
      requires Valid() && k in writableGroups && b != [] && AllFit(b)
      modifies this`journal, db, openGroups.Values
      ensures OthersOk(k) && JustPut(k)
      ensures wrote <= |b| && journal == old(journal) + [Slice(k, b[..wrote])]
      ensures TakesLongest(b, MAX_GROUP_SIZE - old(openGroups[k].committedSize) - old(openGroups[k].inflightSize),
                old(openGroups[k].committedBlocks), wrote)
      ensures openGroups[k].state == if wrote == |b| then Writable else Full
      ensures db.rows.Keys == old(db.rows.Keys)
      ensures wrote == |b| ==> db.rows == old(db.rows)
      ensures wrote < |b| ==> WritableRows(db.rows) == old(WritableRows(db.rows)) - {k}
    {
      hide For, Total, TakesLongest, Group.Valid, RbsDb.Valid;
      var g := writableGroups[k];
      assert GroupOk(k);
      var ok;
      ghost var taken;
      wrote, ok, taken := g.Put(b);
      journal := journal + [Slice(k, b[..wrote])];
      JoinedSnoc(old(journal), Slice(k, b[..wrote]));
      forall x | x in openGroups && x != k
        ensures GroupOk(x)
      {
        assert old(GroupOk(x));
        assert openGroups[x] != g;
      }
    }

    /** One put into a writable group, and its removal from the writable ones once it is full. */
    method PutTo(k: int, b: seq<Blk>) returns (wrote: nat)
      requires Valid() && k in writableGroups && b != [] && AllFit(b)
      modifies this, db, openGroups.Values
      ensures Valid() && openGroups == old(openGroups) && db.rows.Keys == old(db.rows.Keys)
      ensures wrote <= |b| && journal == old(journal) + [Slice(k, b[..wrote])]
      ensures TakesLongest(b, MAX_GROUP_SIZE - old(openGroups[k].committedSize) - old(openGroups[k].inflightSize),
                old(openGroups[k].committedBlocks), wrote)
      ensures wrote == |b| ==> WritableRows(db.rows) == old(WritableRows(db.rows)) && tasks == old(tasks)
      ensures wrote < |b| ==> WritableRows(db.rows) == old(WritableRows(db.rows)) - {k} && tasks == old(tasks) + [k]
    {
      hide For, Total, TakesLongest, Group.Valid, RbsDb.Valid, WritableRows;
      wrote := Give(k, b);
      label given:
      if writableGroups[k].state != Writable {
        writableGroups := writableGroups - {k};
        tasks := tasks + [k];
      }
      forall x | x in openGroups
        ensures GroupOk(x)
      {
        assert x != k ==> old@given(GroupOk(x));
      }
    }

    /** Group.Sync of a writable group. */
    method SyncGroup(k: int)
      requires Valid() && k in writableGroups
      modifies db, openGroups[k]
      ensures Valid() && db.rows.Keys == old(db.rows.Keys)
      ensures forall x :: x in db.rows && x != k ==> db.rows[x] == old(db.rows)[x]
      ensures
        var g := openGroups[k];
        g.head == |g.log| && g.inflightBlocks == 0 && g.inflightSize == 0 && g.log == old(g.log)
    {
      hide For, Total, RbsDb.Valid;
      assert GroupOk(k);
      var g := writableGroups[k];
      g.Sync();
      forall x | x in openGroups
        ensures GroupOk(x)
      {
        assert old(GroupOk(x));
        assert x != k ==> openGroups[x] != g;
      }
    }

    /** withWritableGroup around Group.Put: an open writable group, else one from the database, else a
        new one. Either it takes a block or one writable group fewer is left, and a row is added only when
        no row is writable. */
    method WithWritableGroup(b: seq<Blk>) returns (k: int, wrote: nat)
      requires Valid() && b != [] && AllFit(b)
      modifies this, db, openGroups.Values
      ensures Valid() && openGroups.Keys == old(openGroups.Keys) + {k}
      ensures forall x :: x in old(openGroups) ==> openGroups[x] == old(openGroups[x])
      ensures fresh(openGroups.Values - old(openGroups.Values))
      ensures wrote <= |b| && journal == old(journal) + [Slice(k, b[..wrote])]
      ensures wrote > 0 || |WritableRows(db.rows)| < |old(WritableRows(db.rows))|
      ensures old(writableGroups.Keys) != {} ==> k in old(writableGroups) && openGroups == old(openGroups)
      ensures tasks == old(tasks) + if wrote < |b| then [k] else []
      ensures RowsAfter(k, old(db.rows), db.rows)
    {
      hide For, Total, TakesLongest, Group.Valid, RbsDb.Valid, GroupOk, WritableRows;
      var open := AnyOf(writableGroups.Keys);
      if open.Some? {
        k := open.value;
        InWritableRows(k);
        wrote := PutTo(k, b);
        return;
      }
      k, wrote := PutIntoUnopened(b);
    }

    /** No open group is writable: one from the database, else a new one. */
    method PutIntoUnopened(b: seq<Blk>) returns (k: int, wrote: nat)
      requires Valid() && writableGroups.Keys == {} && b != [] && AllFit(b)
      modifies this, db, openGroups.Values
      ensures Valid() && openGroups.Keys == old(openGroups.Keys) + {k}
      ensures forall x :: x in old(openGroups) ==> openGroups[x] == old(openGroups[x])
      ensures fresh(openGroups[k])
      ensures wrote <= |b| && journal == old(journal) + [Slice(k, b[..wrote])]
      ensures tasks == old(tasks) + if wrote < |b| then [k] else []
      ensures wrote > 0 || |WritableRows(db.rows)| < |old(WritableRows(db.rows))|
      ensures RowsAfter(k, old(db.rows), db.rows)
    {
      hide For, Total, TakesLongest, Group.Valid, RbsDb.Valid, GroupOk, WritableRows;
      var row := AnyOf(WritableRows(db.rows));
      if row.Some? {
        k := row.value;
        NotOpen(k);
        wrote := OpenAndPut(k, b);
      } else {
        k, wrote := PutIntoNew(b);
      }
    }

    /** A new group takes the first block of a batch. */
    method PutIntoNew(b: seq<Blk>) returns (k: int, wrote: nat)
      requires Valid() && b != [] && AllFit(b)
      modifies this, db, openGroups.Values
      ensures Valid() && openGroups.Keys == old(openGroups.Keys) + {k}
      ensures forall x :: x in old(openGroups) ==> openGroups[x] == old(openGroups[x])
      ensures fresh(openGroups[k])
      ensures k !in old(db.rows) && db.rows.Keys == old(db.rows.Keys) + {k}
      ensures WritableRows(db.rows) <= old(WritableRows(db.rows)) + {k}
      ensures 0 < wrote <= |b| && journal == old(journal) + [Slice(k, b[..wrote])]
      ensures tasks == old(tasks) + if wrote < |b| then [k] else []
    {
      hide For, Total, TakesLongest, Group.Valid, RbsDb.Valid, GroupOk, WritableRows;
      k := CreateRow();
      wrote := OpenAndPut(k, b);
      EmptyGroupTakes(b, wrote);
    }

    method OpenAndPut(k: int, b: seq<Blk>) returns (wrote: nat)
      requires Valid() && k in WritableRows(db.rows) && k !in openGroups && b != [] && AllFit(b)
      modifies this, db, openGroups.Values
      ensures Valid() && openGroups.Keys == old(openGroups.Keys) + {k}
      ensures forall x :: x in old(openGroups) ==> openGroups[x] == old(openGroups[x])
      ensures fresh(openGroups[k]) && db.rows.Keys == old(db.rows.Keys)
      ensures wrote <= |b| && journal == old(journal) + [Slice(k, b[..wrote])]
      ensures tasks == old(tasks) + if wrote < |b| then [k] else []
      ensures TakesLongest(b, MAX_GROUP_SIZE - old(db.rows[k].bytes), old(db.rows[k].blocks), wrote)
      ensures wrote == |b| ==> WritableRows(db.rows) == old(WritableRows(db.rows))
      ensures wrote < |b| ==> WritableRows(db.rows) == old(WritableRows(db.rows)) - {k}
    {
      hide For, Total, TakesLongest, Group.Valid, RbsDb.Valid;
      var g := OpenGroup(k);
      assert GroupOk(k);
      wrote := PutTo(k, b);
    }

    method CreateRow() returns (k: int)
      requires Valid()
      modifies db
      ensures Valid() && k !in openGroups && k in db.rows && db.rows[k] == Row(0, 0, Writable)
      ensures k !in old(db.rows) && db.rows.Keys == old(db.rows.Keys) + {k}
      ensures WritableRows(db.rows) == old(WritableRows(db.rows)) + {k}
    {
      hide For;
      k := db.CreateGroup();
      forall x | x in openGroups
        ensures GroupOk(x)
      {
        assert old(GroupOk(x));
      }
    }

    lemma {:induction false} InWritableRows(k: int)
      requires Valid() && k in writableGroups
      ensures k in WritableRows(db.rows) && k in openGroups
    {
      assert GroupOk(k);
    }

    lemma {:induction false} NotOpen(k: int)
      requires Valid() && writableGroups.Keys == {} && k in WritableRows(db.rows)
      ensures k !in openGroups && k in db.rows
    {
      assert k in openGroups ==> GroupOk(k);
    }
  }

  class RibBatch {
    const r: Rbs
    var currentWriteTarget: int
    var toFlush: set<int>

    constructor (r: Rbs)
      ensures this.r == r && toFlush == {}
    {
      this.r, currentWriteTarget, toFlush := r, 0, {};
    }

    /** Everything this batch has put sits in a group that Flush will visit. */
    ghost predicate Tracks(slices: seq<Slice>)
      reads this
    {
      forall i :: 0 <= i < |slices| ==> slices[i].group in toFlush
    }

    /** Put the batch, over as many groups as it takes. All of them but the last are full and queued for
        finalization. */
    method Put(b: seq<Blk>) returns (ghost slices: seq<Slice>)
      requires r.Valid() && AllFit(b)
      modifies this, r, r.db, r.openGroups.Values
      ensures r.Valid() && r.journal == old(r.journal) + slices
      ensures Joined(slices) == b && Tracks(slices) && old(toFlush) <= toFlush
      ensures old(toFlush <= r.openGroups.Keys) ==> toFlush <= r.openGroups.Keys
      ensures forall i :: 0 <= i < |slices| ==> slices[i].group in r.openGroups
      ensures forall x :: x in old(r.openGroups) ==> x in r.openGroups && r.openGroups[x] == old(r.openGroups[x])
      ensures fresh(r.openGroups.Values - old(r.openGroups.Values))
      ensures |WritableRows(r.db.rows)| <= Most(1, |old(WritableRows(r.db.rows))|)
      ensures r.tasks == Queue(old(r.tasks), slices, false)
    {
      hide For, Rbs.Valid, WritableRows, Joined, RowsAfter, Queue, Most, Spread;
      var done := 0;
      slices := [];
      SpreadNone(b, toFlush, r.openGroups.Keys, r.tasks, r.db.rows);
      assert r.journal + [] == r.journal;
      while done < |b|
        invariant r.Valid() && 0 <= done <= |b| && r.journal == old(r.journal) + slices
        invariant Spread(b, done, slices, old(toFlush), toFlush, r.openGroups.Keys, old(r.tasks), r.tasks,
                    old(r.db.rows), r.db.rows)
        invariant old(toFlush <= r.openGroups.Keys) ==> toFlush <= r.openGroups.Keys
        invariant forall x :: x in old(r.openGroups) ==> x in r.openGroups && r.openGroups[x] == old(r.openGroups[x])
        invariant fresh(r.openGroups.Values - old(r.openGroups.Values))
        decreases |b| - done, |WritableRows(r.db.rows)|
      {
        ghost var was, keys, tasks, queued := r.db.rows, r.openGroups.Keys, r.tasks, toFlush;
        var gk, wrote := r.WithWritableGroup(b[done..]);
        ghost var slice := Slice(gk, b[done..][..wrote]);
        SpreadMore(b, done, slices, slice, old(toFlush), queued, keys, old(r.tasks), tasks, old(r.db.rows), was,
          r.db.rows);
        ConcatAssoc(old(r.journal), slices, [slice]);
        slices := slices + [slice];
        done := done + wrote;
        toFlush := toFlush + {gk};
        currentWriteTarget := gk;
      }
      SpreadAll(b, slices, old(toFlush), toFlush, r.openGroups.Keys, old(r.tasks), r.tasks, old(r.db.rows), r.db.rows);
    }

    /** The first blocks of a batch, done of them, have gone to these groups. */
    static ghost predicate Spread(b: seq<Blk>, done: int, slices: seq<Slice>, flush0: set<int>, flush: set<int>,
        open: set<int>, tasks0: seq<int>, tasks: seq<int>, rows0: map<int, Row>, rows: map<int, Row>)
    {
      && 0 <= done <= |b| && Joined(slices) == b[..done]
      && flush0 <= flush && (forall i :: 0 <= i < |slices| ==> slices[i].group in flush && slices[i].group in open)
      && tasks == Queue(tasks0, slices, done < |b|)
      && |WritableRows(rows)| <= Most(1, |WritableRows(rows0)|)
    }

    static lemma {:induction false} SpreadNone(b: seq<Blk>, flush: set<int>, open: set<int>, tasks: seq<int>,
        rows: map<int, Row>)
      ensures Spread(b, 0, [], flush, flush, open, tasks, tasks, rows, rows)
    {
      NothingQueued(tasks);
    }

    static lemma {:induction false} SpreadMore(b: seq<Blk>, done: int, slices: seq<Slice>, slice: Slice,
        flush0: set<int>, flush: set<int>, open: set<int>, tasks0: seq<int>, tasks: seq<int>, rows0: map<int, Row>,
        was: map<int, Row>, rows: map<int, Row>)
      requires Spread(b, done, slices, flush0, flush, open, tasks0, tasks, rows0, was) && done < |b|
      requires RowsAfter(slice.group, was, rows)
      requires |slice.blocks| <= |b| - done && slice.blocks == b[done..][..|slice.blocks|]
      ensures
        var done', tasks' := done + |slice.blocks|, tasks + if |slice.blocks| < |b[done..]| then [slice.group] else [];
        Spread(b, done', slices + [slice], flush0, flush + {slice.group}, open + {slice.group}, tasks0, tasks', rows0,
               rows)
    {
      hide WritableRows, RowsAfter, Queue;
      RowsBounded(slice.group, was, rows);
      JoinedSnoc(slices, slice);
      Queued(tasks0, slices, slice);
      assert b[..done] + b[done..][..|slice.blocks|] == b[..done + |slice.blocks|];
    }

    static lemma {:induction false} SpreadAll(b: seq<Blk>, slices: seq<Slice>, flush0: set<int>, flush: set<int>,
        open: set<int>, tasks0: seq<int>, tasks: seq<int>, rows0: map<int, Row>, rows: map<int, Row>)
      requires Spread(b, |b|, slices, flush0, flush, open, tasks0, tasks, rows0, rows)
      ensures Joined(slices) == b && flush0 <= flush
      ensures forall i :: 0 <= i < |slices| ==> slices[i].group in flush && slices[i].group in open
      ensures tasks == Queue(tasks0, slices, false) && |WritableRows(rows)| <= Most(1, |WritableRows(rows0)|)
    {
      hide Joined, Queue, WritableRows, Most;
      assert b[..|b|] == b;
    }

    /** Flush: sync every group that the batch wrote and that is still writable; the others were
        synced when they became full. Afterwards all of the batch is committed and recorded. */
    method Flush()
      requires r.Valid() && toFlush <= r.openGroups.Keys
      modifies this, r.db, r.openGroups.Values
      ensures r.Valid() && toFlush == {}
      ensures forall k :: k in old(toFlush) ==> Settled(k)
    {
      hide For, Total, RbsDb.Valid;
      var left := toFlush;
      while left != {}
        invariant r.Valid() && left <= toFlush == old(toFlush) <= r.openGroups.Keys
        invariant forall k :: k in toFlush && k !in left ==> Settled(k)
        decreases |left|
      {
        var next := AnyOf(left);
        var key := next.value;
        left := left - {key};
        if key in r.writableGroups {
          r.SyncGroup(key);
        } else {
          assert r.GroupOk(key);
        }
      }
      toFlush := {};
    }

    /** Nothing of this group is in flight: its committed head is the end of its log, and the
        database has its counters. */
    ghost predicate Settled(k: int)
      reads this, r, r.db, r.openGroups.Values
    {
      && k in r.openGroups && k in r.db.rows
      && var g := r.openGroups[k];
         && g.head == |g.log| && g.inflightBlocks == 0 && g.inflightSize == 0
         && r.db.rows[k] == Row(g.committedBlocks, g.committedSize, g.state)
    }
  }

  lemma {:induction false} Queued(tasks: seq<int>, s: seq<Slice>, x: Slice)
    ensures Queue(tasks, s, true) + [x.group] == Queue(tasks, s + [x], true)
    ensures Queue(tasks, s, true) + [] == Queue(tasks, s + [x], false)
  {
    assert GroupsOf(s + [x]) == GroupsOf(s) + [x.group];
    assert (s + [x])[..|s + [x]| - 1] == s;
  }

  lemma {:induction false} NothingQueued(tasks: seq<int>)
    ensures forall all :: Queue(tasks, [], all) == tasks
  {}
}
