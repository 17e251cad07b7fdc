/** Choosing the batch: outstanding reversals, oldest first, up to a limit. */
module PendingReversals {
  import opened Prelude
  import opened ReversalEvents
  import opened ReversalStore
  import C = CanonicalJson

  predicate IsOutstanding(records: Records, id: string) {
    id in records && records[id].status.Outstanding?
  }

  function OutstandingIds(records: Records): set<string> {
    set id | id in records && records[id].status.Outstanding?
  }

  /** `a` was queued strictly before `b`; timestamps of one format compare as text. */
  predicate Older(records: Records, a: string, b: string)
    requires a in records && b in records
  {
    C.Less(records[a].createdAt, records[b].createdAt)
  }

  ghost predicate Listed(records: Records, ids: seq<string>) {
    && (forall i :: 0 <= i < |ids| ==> IsOutstanding(records, ids[i]))
    && forall i, j :: 0 <= i < j < |ids| ==> ids[i] != ids[j]
  }

  ghost predicate ByAge(records: Records, ids: seq<string>)
    requires Listed(records, ids)
  {
    forall i, j :: 0 <= i < j < |ids| ==> !Older(records, ids[j], ids[i])
  }

  /** A batch as `pending` promises it: nobody left out is older than anybody in it. */
  ghost predicate OldestFirst(records: Records, limit: nat, batch: seq<string>) {
    && Listed(records, batch) && ByAge(records, batch)
    && |batch| == Min(limit, |OutstandingIds(records)|)
    && forall id, i :: IsOutstanding(records, id) && id !in batch && 0 <= i < |batch| ==> !Older(records, id, batch[i])
  }

  /** Behind everything at least as old. */
  function InsertByAge(records: Records, ids: seq<string>, id: string): seq<string>
    requires id in records && forall i :: 0 <= i < |ids| ==> ids[i] in records
  {
    if ids == [] || Older(records, id, ids[0]) then [id] + ids
    else [ids[0]] + InsertByAge(records, ids[1..], id)
  }

  lemma OlderTransitive(records: Records, a: string, b: string, c: string)
    requires a in records && b in records && c in records
    ensures !Older(records, a, b) && !Older(records, b, c) ==> !Older(records, a, c)
    ensures Older(records, a, b) ==> !Older(records, b, a)
  {
    var x, y, z := records[a].createdAt, records[b].createdAt, records[c].createdAt;
    C.LessTotal(x, y);
    C.LessTotal(y, z);
    C.LessTotal(x, z);
    if C.Less(z, y) && C.Less(y, x) { C.LessTransitive(z, y, x); }
  }

  lemma {:induction false} InsertListed(records: Records, ids: seq<string>, id: string)
    requires Listed(records, ids) && IsOutstanding(records, id) && id !in ids
    ensures var more := InsertByAge(records, ids, id);
      |more| == |ids| + 1 && (forall x :: x in more <==> x in ids || x == id) && Listed(records, more)
  {
    if ids != [] && !Older(records, id, ids[0]) {
      var tail := ids[1..];
      InsertListed(records, tail, id);
      var more := InsertByAge(records, tail, id);
      assert ids == [ids[0]] + tail;
      assert ids[0] !in tail;
      assert forall j :: 0 <= j < |more| ==> more[j] in more;
    } else {
      assert forall j :: 0 <= j < |ids| ==> ids[j] in ids;
    }
  }

  lemma BehindAll(records: Records, ids: seq<string>, id: string)
    requires Listed(records, ids) && ByAge(records, ids) && id in records
    requires ids != [] && Older(records, id, ids[0])
    ensures forall i :: 0 <= i < |ids| ==> !Older(records, ids[i], id)
  {
    forall i | 0 <= i < |ids| ensures !Older(records, ids[i], id) {
      OlderTransitive(records, id, ids[0], ids[0]);
      OlderTransitive(records, ids[i], ids[0], id);
    }
  }

  lemma {:induction false} InsertKeepsAge(records: Records, ids: seq<string>, id: string)
    requires Listed(records, ids) && ByAge(records, ids) && IsOutstanding(records, id) && id !in ids
    ensures var more := InsertByAge(records, ids, id);
      && |more| == |ids| + 1 && (forall x :: x in more <==> x in ids || x == id)
      && Listed(records, more) && ByAge(records, more)
  {
    InsertListed(records, ids, id);
    if ids != [] && !Older(records, id, ids[0]) {
      var tail := ids[1..];
      InsertKeepsAge(records, tail, id);
      var more := InsertByAge(records, tail, id);
      forall j | 0 <= j < |more| ensures !Older(records, more[j], ids[0]) {
        assert more[j] in more;
        if more[j] != id {
          var i :| 0 <= i < |tail| && tail[i] == more[j];
          assert ids[i + 1] == more[j];
        }
      }
    } else if ids != [] {
      BehindAll(records, ids, id);
    }
  }

  /** Cutting a list by age leaves out only what is no older. */
  lemma CutKeepsOldest(records: Records, ids: seq<string>, limit: nat)
    requires Listed(records, ids) && ByAge(records, ids)
    requires forall id :: id in ids <==> IsOutstanding(records, id)
    requires |ids| == |OutstandingIds(records)|
    ensures OldestFirst(records, limit, ids[..Min(limit, |ids|)])
  {
    var batch := ids[..Min(limit, |ids|)];
    forall id, i | IsOutstanding(records, id) && id !in batch && 0 <= i < |batch| ensures !Older(records, id, batch[i]) {
      var j :| 0 <= j < |ids| && ids[j] == id;
      assert forall m :: 0 <= m < |batch| ==> ids[m] == batch[m] && batch[m] in batch;
    }
  }

  method Pending(records: Records, limit: nat) returns (batch: seq<string>)
    ensures OldestFirst(records, limit, batch)
  {
    var ids: seq<string> := [];
    var rest := OutstandingIds(records);
    while rest != {}
      invariant rest <= OutstandingIds(records)
      invariant Listed(records, ids) && ByAge(records, ids)
      invariant forall id :: id in ids <==> id in OutstandingIds(records) && id !in rest
      invariant |ids| + |rest| == |OutstandingIds(records)|
    {
      var id: string :| id in rest;
      InsertKeepsAge(records, ids, id);
      ids := InsertByAge(records, ids, id);
      rest := rest - {id};
    }
    CutKeepsOldest(records, ids, limit);
    batch := ids[..Min(limit, |ids|)];
  }
}
