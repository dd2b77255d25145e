/**
  The proof-state service: a message's rows are written, then its hashes are announced to the
  proof generator, both in batches. Any write or announcement may fail; the message then goes
  back to the queue and is handled again.
 */
module ProofStateService {
  import opened ProofRows
  import opened CachedTable
  import opened Sequences

  const CAL_STATE_WRITE_BATCH_SIZE := 200
  const CAL_PROOF_GEN_BATCH_SIZE := 2500
  const BTC_PROOF_GEN_BATCH_SIZE := 2500

  /** What a handler does to the outside. */
  datatype Action<R> = Wrote(rows: seq<R>) | Announced(hashIDs: seq<Id>)

  // ---------- batches ----------

  function Min(a: nat, b: nat): nat {
    if a < b then a else b
  }

  /** The pieces that splice(0, size) takes off a list. */
  function Batches<T>(s: seq<T>, size: nat): seq<seq<T>>
    requires size > 0
  {
    if s == [] then [] else [s[..Min(size, |s|)]] + Batches(s[Min(size, |s|)..], size)
  }

  function Flatten<T>(batches: seq<seq<T>>): seq<T> {
    if batches == [] then [] else batches[0] + Flatten(batches[1..])
  }

  /** The batches are the list, in order, in pieces of 1 to `size`; only the last may be short. */
  lemma {:induction false} BatchesAreTheList<T>(s: seq<T>, size: nat)
    requires size > 0
    ensures Flatten(Batches(s, size)) == s
    ensures forall k :: 0 <= k < |Batches(s, size)| ==> 1 <= |Batches(s, size)[k]| <= size
    ensures forall k :: 0 <= k < |Batches(s, size)| - 1 ==> |Batches(s, size)[k]| == size
    decreases |s|
  {
    if s != [] {
      var n := Min(size, |s|);
      BatchesAreTheList(s[n..], size);
      assert s == s[..n] + s[n..];
      if n == |s| {
        assert s[n..] == [];
      }
    }
  }

  // ---------- the plan of a message ----------

  function Writes<R>(batches: seq<seq<R>>): seq<Action<R>> {
    seq(|batches|, i requires 0 <= i < |batches| => Wrote(batches[i]))
  }

  function Announcements<R>(batches: seq<seq<Id>>): seq<Action<R>> {
    seq(|batches|, i requires 0 <= i < |batches| => Announced(batches[i]))
  }

  /** Everything a cal_batch message is to cause, in order. */
  function CalPlan(rows: seq<CalRow>, hashIDs: seq<Id>): seq<Action<CalRow>> {
    Writes(Batches(rows, CAL_STATE_WRITE_BATCH_SIZE)) + Announcements(Batches(hashIDs, CAL_PROOF_GEN_BATCH_SIZE))
  }

  function UpTo<T>(s: seq<T>, n: nat): seq<T> {
    s[..Min(n, |s|)]
  }

  /** A budget that is enough for the writes is used up in the second loop, any other in the first. */
  lemma BothLoops(rows: seq<CalRow>, hashIDs: seq<Id>, budget: nat)
    requires var writes := Writes<CalRow>(Batches(rows, CAL_STATE_WRITE_BATCH_SIZE)); |writes| <= budget
    ensures var writes := Writes<CalRow>(Batches(rows, CAL_STATE_WRITE_BATCH_SIZE));
            var sends := Announcements<CalRow>(Batches(hashIDs, CAL_PROOF_GEN_BATCH_SIZE));
            && UpTo(writes, budget) == writes && |CalPlan(rows, hashIDs)| == |writes| + |sends|
            && UpTo(CalPlan(rows, hashIDs), budget) == writes + UpTo(sends, budget - |writes|)
  {
  }

  lemma FirstLoopOnly(rows: seq<CalRow>, hashIDs: seq<Id>, budget: nat)
    requires var writes := Writes<CalRow>(Batches(rows, CAL_STATE_WRITE_BATCH_SIZE)); |writes| > budget
    ensures var writes := Writes<CalRow>(Batches(rows, CAL_STATE_WRITE_BATCH_SIZE));
            |CalPlan(rows, hashIDs)| > budget && UpTo(CalPlan(rows, hashIDs), budget) == UpTo(writes, budget)
  {
  }

  function CalKey(row: CalRow): Id {
    row.aggID
  }

  /** What a sequence of actions leaves in the table. */
  function After(table: map<Id, CalRow>, done: seq<Action<CalRow>>): map<Id, CalRow> {
    if done == [] then table
    else
      var before := After(table, done[..|done| - 1]);
      match done[|done| - 1]
      case Wrote(rows) => FirstWins(before, rows, CalKey)
      case Announced(_) => before
  }

  /** ConsumeCalendarBatchMessageAsync, from the point where the hash IDs are read. The budget is
      the number of writes and announcements that succeed before one fails. */
  method ConsumeCalendarBatch(store: Table<CalRow>, rows: seq<CalRow>, hashIDs: seq<Id>, budget: nat, stored: bool)
    returns (acked: bool, done: seq<Action<CalRow>>)
    modifies store
    ensures done == UpTo(CalPlan(rows, hashIDs), budget)
    ensures acked <==> |CalPlan(rows, hashIDs)| <= budget
    ensures store.table == After(old(store.table), done)
  {
    acked, done := WriteRows(store, rows, budget, stored);
    if acked {
      var sent;
      acked, sent := AnnounceHashes(hashIDs, budget - |done|);
      AfterAnnouncements(old(store.table), done, sent);
      BothLoops(rows, hashIDs, budget);
      done := done + sent;
    } else {
      FirstLoopOnly(rows, hashIDs, budget);
    }
  }

  /** The first loop: the rows. */
  method WriteRows(store: Table<CalRow>, rows: seq<CalRow>, budget: nat, stored: bool)
    returns (all: bool, done: seq<Action<CalRow>>)
    modifies store
    ensures var plan := Writes<CalRow>(Batches(rows, CAL_STATE_WRITE_BATCH_SIZE));
            done == UpTo(plan, budget) && (all <==> |plan| <= budget)
    ensures store.table == After(old(store.table), done)
  {
    var stateObjs := rows;
    done := [];
    ghost var plan := Writes<CalRow>(Batches(rows, CAL_STATE_WRITE_BATCH_SIZE));
    while |stateObjs| > 0
      invariant plan == done + Writes(Batches(stateObjs, CAL_STATE_WRITE_BATCH_SIZE))
      invariant |done| <= budget && store.table == After(old(store.table), done)
      decreases |stateObjs|
    {
      if |done| == budget {
        return false, done;
      }
      var n := Min(CAL_STATE_WRITE_BATCH_SIZE, |stateObjs|);
      WritesOneBatch(stateObjs);
      var ok := store.WriteBulk(stateObjs[..n], CalKey, stored);
      AfterOneMore(old(store.table), done, Wrote(stateObjs[..n]));
      done := done + [Wrote(stateObjs[..n])];
      stateObjs := stateObjs[n..];
    }
    return true, done;
  }

  /** The second loop: the hash IDs. */
  method AnnounceHashes(hashIDs: seq<Id>, budget: nat) returns (all: bool, done: seq<Action<CalRow>>)
    ensures var plan := Announcements<CalRow>(Batches(hashIDs, CAL_PROOF_GEN_BATCH_SIZE));
            done == UpTo(plan, budget) && (all <==> |plan| <= budget)
  {
    var hashIds := hashIDs;
    done := [];
    ghost var plan := Announcements<CalRow>(Batches(hashIDs, CAL_PROOF_GEN_BATCH_SIZE));
    while |hashIds| > 0
      invariant plan == done + Announcements(Batches(hashIds, CAL_PROOF_GEN_BATCH_SIZE))
      invariant |done| <= budget
      decreases |hashIds|
    {
      if |done| == budget {
        return false, done;
      }
      var n := Min(CAL_PROOF_GEN_BATCH_SIZE, |hashIds|);
      AnnouncementsOneBatch<CalRow>(hashIds, CAL_PROOF_GEN_BATCH_SIZE);
      done := done + [Announced(hashIds[..n])];
      hashIds := hashIds[n..];
    }
    return true, done;
  }

  lemma WritesOneBatch(rows: seq<CalRow>)
    requires rows != []
    ensures var n := Min(CAL_STATE_WRITE_BATCH_SIZE, |rows|);
            Writes<CalRow>(Batches(rows, CAL_STATE_WRITE_BATCH_SIZE))
            == [Wrote(rows[..n])] + Writes(Batches(rows[n..], CAL_STATE_WRITE_BATCH_SIZE))
  {
    var n := Min(CAL_STATE_WRITE_BATCH_SIZE, |rows|);
    FirstWrite(rows[..n], Batches(rows[n..], CAL_STATE_WRITE_BATCH_SIZE));
  }

  lemma FirstWrite<R>(batch: seq<R>, batches: seq<seq<R>>)
    ensures Writes([batch] + batches) == [Wrote(batch)] + Writes(batches)
  {
  }

  lemma AnnouncementsOneBatch<R>(hashIDs: seq<Id>, size: nat)
    requires hashIDs != [] && size > 0
    ensures var n := Min(size, |hashIDs|);
            Announcements<R>(Batches(hashIDs, size)) == [Announced(hashIDs[..n])] + Announcements(Batches(hashIDs[n..], size))
  {
    var n := Min(size, |hashIDs|);
    FirstAnnouncement<R>(hashIDs[..n], Batches(hashIDs[n..], size));
  }

  lemma FirstAnnouncement<R>(batch: seq<Id>, batches: seq<seq<Id>>)
    ensures Announcements<R>([batch] + batches) == [Announced(batch)] + Announcements(batches)
  {
  }

  lemma {:induction false} AfterAnnouncements(table: map<Id, CalRow>, done: seq<Action<CalRow>>, sent: seq<Action<CalRow>>)
    requires forall k :: 0 <= k < |sent| ==> sent[k].Announced?
    ensures After(table, done + sent) == After(table, done)
    decreases |sent|
  {
    if sent == [] {
      assert done + sent == done;
    } else {
      var n := |sent| - 1;
      assert done + sent == (done + sent[..n]) + [sent[n]];
      AfterOneMore(table, done + sent[..n], sent[n]);
      AfterAnnouncements(table, done, sent[..n]);
    }
  }

  lemma PlanOfRows(rows: seq<CalRow>, hashIDs: seq<Id>)
    requires rows != []
    ensures var n := Min(CAL_STATE_WRITE_BATCH_SIZE, |rows|);
            CalPlan(rows, hashIDs) == [Wrote(rows[..n])] + CalPlan(rows[n..], hashIDs)
  {
    WritesOneBatch(rows);
  }

  lemma PlanOfHashes(hashIDs: seq<Id>)
    requires hashIDs != []
    ensures var n := Min(CAL_PROOF_GEN_BATCH_SIZE, |hashIDs|);
            CalPlan([], hashIDs) == [Announced(hashIDs[..n])] + CalPlan([], hashIDs[n..])
  {
    AnnouncementsOneBatch<CalRow>(hashIDs, CAL_PROOF_GEN_BATCH_SIZE);
  }

  lemma AfterOneMore(table: map<Id, CalRow>, done: seq<Action<CalRow>>, action: Action<CalRow>)
    ensures After(table, done + [action])
         == if action.Wrote? then FirstWins(After(table, done), action.rows, CalKey) else After(table, done)
  {
    assert (done + [action])[..|done|] == done;
  }

  // ---------- what a complete run announces ----------

  function RowsOf(done: seq<Action<CalRow>>): seq<CalRow> {
    if done == [] then []
    else RowsOf(done[..|done| - 1]) + if done[|done| - 1].Wrote? then done[|done| - 1].rows else []
  }

  function HashesOf(done: seq<Action<CalRow>>): seq<Id> {
    if done == [] then []
    else HashesOf(done[..|done| - 1]) + if done[|done| - 1].Announced? then done[|done| - 1].hashIDs else []
  }

  lemma {:induction false} PartsConcat(a: seq<Action<CalRow>>, b: seq<Action<CalRow>>)
    ensures RowsOf(a + b) == RowsOf(a) + RowsOf(b)
    ensures HashesOf(a + b) == HashesOf(a) + HashesOf(b)
    decreases |b|
  {
    if b == [] {
      assert a + b == a;
    } else {
      var n := |b| - 1;
      var last := b[n];
      PartsConcat(a, b[..n]);
      SplitLast(a, b);
      PartsOneMore(a + b[..n], last);
      PartsOneMore(b[..n], last);
      Regroup(RowsOf(a), RowsOf(b[..n]), if last.Wrote? then last.rows else []);
      Regroup(HashesOf(a), HashesOf(b[..n]), if last.Announced? then last.hashIDs else []);
    }
  }

  lemma PartsOneMore(done: seq<Action<CalRow>>, action: Action<CalRow>)
    ensures RowsOf(done + [action]) == RowsOf(done) + if action.Wrote? then action.rows else []
    ensures HashesOf(done + [action]) == HashesOf(done) + if action.Announced? then action.hashIDs else []
  {
    assert (done + [action])[..|done|] == done;
  }

  lemma FirstPart(first: Action<CalRow>, rest: seq<Action<CalRow>>)
    ensures RowsOf([first] + rest) == (if first.Wrote? then first.rows else []) + RowsOf(rest)
    ensures HashesOf([first] + rest) == (if first.Announced? then first.hashIDs else []) + HashesOf(rest)
  {
    PartsConcat([first], rest);
    assert [first][..0] == [];
  }

  lemma {:induction false} PlanParts(rows: seq<CalRow>, hashIDs: seq<Id>)
    ensures RowsOf(CalPlan(rows, hashIDs)) == rows && HashesOf(CalPlan(rows, hashIDs)) == hashIDs
    decreases |rows|, |hashIDs|
  {
    TakeAndDrop(hashIDs, Min(CAL_PROOF_GEN_BATCH_SIZE, |hashIDs|));
    if rows != [] {
      var n := Min(CAL_STATE_WRITE_BATCH_SIZE, |rows|);
      PlanOfRows(rows, hashIDs);
      PlanParts(rows[n..], hashIDs);
      FirstPart(Wrote(rows[..n]), CalPlan(rows[n..], hashIDs));
      TakeAndDrop(rows, n);
    } else if hashIDs != [] {
      var n := Min(CAL_PROOF_GEN_BATCH_SIZE, |hashIDs|);
      PlanOfHashes(hashIDs);
      PlanParts([], hashIDs[n..]);
      FirstPart(Announced(hashIDs[..n]), CalPlan([], hashIDs[n..]));
    }
  }

  /** A complete run announces every hash ID, in order, in batches of 1 to 2500, and the first
      only after the last row is written; rows go out in batches of 1 to 200. Only the last batch of
      each kind may be smaller. */
  lemma CompleteRunAnnouncesAll(rows: seq<CalRow>, hashIDs: seq<Id>)
    ensures var plan := CalPlan(rows, hashIDs);
            && RowsOf(plan) == rows && HashesOf(plan) == hashIDs
            && (forall k :: 0 <= k < |plan| ==> match plan[k]
                  case Wrote(some) => 1 <= |some| <= 200
                  case Announced(some) => 1 <= |some| <= 2500)
            && (forall k :: 0 <= k < |plan| - 1 ==>
                  && (plan[k].Wrote? && plan[k + 1].Wrote? ==> |plan[k].rows| == 200)
                  && (plan[k].Announced? ==> |plan[k].hashIDs| == 2500))
            && (forall i, k :: 0 <= i < k < |plan| && plan[i].Announced? ==> plan[k].Announced?)
  {
    PlanParts(rows, hashIDs);
    BatchesAreTheList(rows, CAL_STATE_WRITE_BATCH_SIZE);
    BatchesAreTheList(hashIDs, CAL_PROOF_GEN_BATCH_SIZE);
  }

  // ---------- redelivery ----------

  /** Attempts that each stop after some number of actions. The hash IDs are read anew each time. */
  function AfterAttempts(table: map<Id, CalRow>, rows: seq<CalRow>, attempts: seq<(seq<Id>, nat)>): map<Id, CalRow> {
    if attempts == [] then table
    else
      var n := |attempts| - 1;
      After(AfterAttempts(table, rows, attempts[..n]), UpTo(CalPlan(rows, attempts[n].0), attempts[n].1))
  }

  lemma {:induction false} FirstWinsConcat<R>(kept: map<Id, R>, a: seq<R>, b: seq<R>, key: R -> Id)
    ensures FirstWins(kept, a + b, key) == FirstWins(FirstWins(kept, a, key), b, key)
    decreases |b|
  {
    if b == [] {
      assert a + b == a;
    } else {
      var n := |b| - 1;
      assert (a + b)[..|a + b| - 1] == a + b[..n];
      FirstWinsConcat(kept, a, b[..n], key);
    }
  }

  lemma {:induction false} AfterIsFirstWins(table: map<Id, CalRow>, done: seq<Action<CalRow>>)
    ensures After(table, done) == FirstWins(table, RowsOf(done), CalKey)
  {
    if done != [] {
      var n := |done| - 1;
      AfterIsFirstWins(table, done[..n]);
      if done[n].Wrote? {
        FirstWinsConcat(table, RowsOf(done[..n]), done[n].rows, CalKey);
      } else {
        assert RowsOf(done) == RowsOf(done[..n]);
      }
    }
  }

  /** Which row is found in the end: the kept one, or else the first of the new ones. */
  lemma {:induction false} FirstWinsFinds<R>(kept: map<Id, R>, rows: seq<R>, key: R -> Id)
    ensures forall id :: id in kept ==> id in FirstWins(kept, rows, key) && FirstWins(kept, rows, key)[id] == kept[id]
    ensures forall row :: row in rows ==> key(row) in FirstWins(kept, rows, key)
    ensures forall id :: id in FirstWins(kept, rows, key) && id !in kept ==> exists row :: row in rows && key(row) == id
  {
    if rows != [] {
      FirstWinsFinds(kept, rows[..|rows| - 1], key);
      assert rows == rows[..|rows| - 1] + [rows[|rows| - 1]];
    }
  }

  lemma {:induction false} NothingNew<R>(kept: map<Id, R>, rows: seq<R>, key: R -> Id)
    requires forall row :: row in rows ==> key(row) in kept
    ensures FirstWins(kept, rows, key) == kept
  {
    if rows != [] {
      NothingNew(kept, rows[..|rows| - 1], key);
      assert rows[|rows| - 1] in rows;
    }
  }

  /** Writing a first part of the rows and then all of them is writing all of them. */
  lemma PartThenAll<R>(kept: map<Id, R>, rows: seq<R>, part: nat, key: R -> Id)
    requires part <= |rows|
    ensures FirstWins(FirstWins(kept, rows[..part], key), rows, key) == FirstWins(kept, rows, key)
  {
    var once := FirstWins(kept, rows[..part], key);
    assert rows == rows[..part] + rows[part..];
    FirstWinsConcat(kept, rows[..part], rows[part..], key);
    FirstWinsConcat(once, rows[..part], rows[part..], key);
    FirstWinsFinds(kept, rows[..part], key);
    NothingNew(once, rows[..part], key);
  }

  /** A stopped attempt has written a first part of the rows. */
  lemma StoppedAttempt(table: map<Id, CalRow>, rows: seq<CalRow>, hashIDs: seq<Id>, budget: nat) returns (part: nat)
    ensures part <= |rows|
    ensures After(table, UpTo(CalPlan(rows, hashIDs), budget)) == FirstWins(table, rows[..part], CalKey)
  {
    var plan := CalPlan(rows, hashIDs);
    var n := Min(budget, |plan|);
    AfterIsFirstWins(table, plan[..n]);
    PlanParts(rows, hashIDs);
    assert plan == plan[..n] + plan[n..];
    PartsConcat(plan[..n], plan[n..]);
    part := |RowsOf(plan[..n])|;
  }

  /** Redelivery is harmless: after any number of stopped attempts, one complete run leaves the
      table as a single complete run would have. */
  lemma {:induction false} RedeliveryIsHarmless(table: map<Id, CalRow>, rows: seq<CalRow>, attempts: seq<(seq<Id>, nat)>, hashIDs: seq<Id>)
    ensures After(AfterAttempts(table, rows, attempts), CalPlan(rows, hashIDs)) == After(table, CalPlan(rows, hashIDs))
    decreases |attempts|
  {
    if attempts != [] {
      var n := |attempts| - 1;
      var before := AfterAttempts(table, rows, attempts[..n]);
      var part := StoppedAttempt(before, rows, attempts[n].0, attempts[n].1);
      PartThenAll(before, rows, part, CalKey);
      CompleteRunWrites(AfterAttempts(table, rows, attempts), rows, hashIDs);
      CompleteRunWrites(before, rows, hashIDs);
      RedeliveryIsHarmless(table, rows, attempts[..n], hashIDs);
    }
  }

  lemma CompleteRunWrites(table: map<Id, CalRow>, rows: seq<CalRow>, hashIDs: seq<Id>)
    ensures After(table, CalPlan(rows, hashIDs)) == FirstWins(table, rows, CalKey)
  {
    AfterIsFirstWins(table, CalPlan(rows, hashIDs));
    PlanParts(rows, hashIDs);
  }

  // ---------- the Bitcoin confirmation ----------

  /** ConsumeBtcMonMessageAsync: the head row is written over any older one, then the hashes are
      announced. A height that is no integer is an error before anything is written. */
  method ConsumeBtcMon(heads: map<Id, HeadRow>, head: HeadRow, heightParses: bool, hashIDs: seq<Id>, budget: nat)
    returns (acked: bool, heads': map<Id, HeadRow>, done: seq<Action<HeadRow>>)
    ensures var plan := [Wrote([head])] + Announcements(Batches(hashIDs, BTC_PROOF_GEN_BATCH_SIZE));
            && done == (if heightParses then UpTo(plan, budget) else [])
            && (acked <==> heightParses && |plan| <= budget)
            && heads' == if done != [] then heads[head.btcTxID := head] else heads
  {
    heads', done := heads, [];
    if !heightParses || budget == 0 {
      return false, heads', done;
    }
    heads' := heads'[head.btcTxID := head];
    done := [Wrote([head])];
    var hashIds := hashIDs;
    ghost var plan := [Wrote([head])] + Announcements(Batches(hashIDs, BTC_PROOF_GEN_BATCH_SIZE));
    while |hashIds| > 0
      invariant plan == done + Announcements(Batches(hashIds, BTC_PROOF_GEN_BATCH_SIZE))
      invariant 0 < |done| <= budget
      decreases |hashIds|
    {
      if |done| == budget {
        return false, heads', done;
      }
      var n := Min(BTC_PROOF_GEN_BATCH_SIZE, |hashIds|);
      AnnouncementsOneBatch<HeadRow>(hashIds, BTC_PROOF_GEN_BATCH_SIZE);
      done := done + [Announced(hashIds[..n])];
      hashIds := hashIds[n..];
    }
    return true, heads', done;
  }

  /** A confirmation that is handled completely announces every hash ID, in order, in batches of 2500,
      of which only the last may be smaller, after the head row. */
  lemma ConfirmationAnnouncesAll(head: HeadRow, hashIDs: seq<Id>)
    ensures var batches := Batches(hashIDs, BTC_PROOF_GEN_BATCH_SIZE);
            var plan := [Wrote([head])] + Announcements(batches);
            && Flatten(batches) == hashIDs && |plan| == 1 + |batches| && plan[0] == Wrote([head])
            && (forall k :: 0 <= k < |batches| ==> plan[k + 1] == Announced(batches[k]) && 1 <= |batches[k]| <= 2500)
            && (forall k :: 0 <= k < |batches| - 1 ==> |batches[k]| == 2500)
  {
    BatchesAreTheList(hashIDs, BTC_PROOF_GEN_BATCH_SIZE);
  }
}
