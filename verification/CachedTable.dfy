/**
  A proof-state table with its Redis cache: the calendar and the anchor rows are both kept this
  way. Rows are inserted unless there is one with their key, and cached unless there is one in
  the cache; a bulk read takes what it can from the cache and caches what it had to read.
 */
module CachedTable {
  import opened ByteStrings
  import opened ProofRows

  /** "ON CONFLICT DO NOTHING", and Redis' NX: of rows with one key the first one stays. */
  function FirstWins<R>(kept: map<Id, R>, rows: seq<R>, key: R -> Id): map<Id, R> {
    if rows == [] then kept
    else
      var row := rows[|rows| - 1];
      var before := FirstWins(kept, rows[..|rows| - 1], key);
      if key(row) in before then before else before[key(row) := row]
  }

  /** A plain SET: the last one counts. */
  function LastWins<R>(kept: map<Id, R>, rows: seq<R>, key: R -> Id): map<Id, R> {
    if rows == [] then kept
    else LastWins(kept, rows[..|rows| - 1], key)[key(rows[|rows| - 1]) := rows[|rows| - 1]]
  }

  /** The rows of those ids that a map holds, in the order of the ids. */
  function Hits<R>(ids: seq<Id>, kept: map<Id, R>): seq<R> {
    if ids == [] then []
    else
      var n := |ids| - 1;
      Hits(ids[..n], kept) + if ids[n] in kept then [kept[ids[n]]] else []
  }

  function Misses<R>(ids: seq<Id>, kept: map<Id, R>): seq<Id> {
    if ids == [] then []
    else
      var n := |ids| - 1;
      Misses(ids[..n], kept) + if ids[n] in kept then [] else [ids[n]]
  }

  /** `order` lists, in the order the database chose, the ids among `asked` that it holds. */
  ghost predicate IsAnswer<R>(order: seq<Id>, asked: seq<Id>, table: map<Id, R>) {
    && (forall i, j :: 0 <= i < j < |order| ==> order[i] != order[j])
    && (forall id :: id in order <==> id in asked && id in table)
  }

  /** What the cache answers: everything without Redis is a miss. */
  function Cached<R>(redis: bool, cache: map<Id, R>): map<Id, R> {
    if redis then cache else map[]
  }

  /** The rows of a bulk read. */
  function RowsRead<R>(ids: seq<Id>, order: seq<Id>, table: map<Id, R>, cached: map<Id, R>): seq<R> {
    Hits(order, table) + Hits(ids, cached)
  }

  class Table<R> {
    var table: map<Id, R>
    var cache: map<Id, R>
    var redis: bool

    /** The state of the table, between operations, in the machine of events below. */
    function Now(): Store<R>
      reads this
    {
      Store(table, cache, redis, [])
    }

    constructor ()
      ensures Now() == Store(map[], map[], false, [])
    {
      table, cache, redis := map[], map[], false;
    }

    method InsertUnlessKept(kept: map<Id, R>, rows: seq<R>, key: R -> Id) returns (all: map<Id, R>)
      ensures all == FirstWins(kept, rows, key)
    {
      all := kept;
      for i := 0 to |rows|
        invariant all == FirstWins(kept, rows[..i], key)
      {
        assert rows[..i + 1][..i] == rows[..i];
        if key(rows[i]) !in all {
          all := all[key(rows[i]) := rows[i]];
        }
      }
      assert rows[..|rows|] == rows;
    }

    /** The bulk writes. An insert of no rows is an SQL error. `stored` tells whether Redis took
        the values. */
    method WriteBulk(rows: seq<R>, key: R -> Id, stored: bool) returns (ok: bool)
      modifies this
      ensures ok <==> rows != []
      ensures Now() == StoreStep(StoreStep(old(Now()), Insert(rows), key), Cache(0, stored), key)
      ensures table == FirstWins(old(table), rows, key)
    {
      if |rows| == 0 {
        return false;
      }
      table := InsertUnlessKept(table, rows, key);
      if redis {
        if stored {
          cache := InsertUnlessKept(cache, rows, key);
        }
      }
      return true;
    }

    /** The bulk reads. `order` is the database's answer to the ids that the cache does not have.
        When Redis fails to answer, looking at its results is an exception, unless nothing was asked. */
    method ReadBulk(ids: seq<Id>, answered: bool, order: seq<Id>, key: R -> Id, stored: bool) returns (r: Option<seq<R>>)
      requires IsAnswer(order, Misses(ids, Cached(redis, cache)), table)
      modifies this
      ensures if redis && !answered && ids != [] then r == None && Now() == old(Now())
              else
                && r == Some(RowsRead(ids, order, old(table), Cached(redis, old(cache))))
                && Now() == StoreStep(StoreStep(old(Now()), Select(order), key), Cache(0, stored), key)
    {
      if redis && !answered && |ids| > 0 {
        return None;
      }
      r := ReadAnswered(ids, order, key, stored);
    }

    method ReadAnswered(ids: seq<Id>, order: seq<Id>, key: R -> Id, stored: bool) returns (r: Option<seq<R>>)
      requires IsAnswer(order, Misses(ids, Cached(redis, cache)), table)
      modifies this
      ensures r == Some(RowsRead(ids, order, old(table), Cached(redis, old(cache))))
      ensures Now() == StoreStep(StoreStep(old(Now()), Select(order), key), Cache(0, stored), key)
    {
      var data: seq<Option<R>> := seq(|ids|, i requires 0 <= i < |ids| => None);
      var cached := if redis then cache else map[];
      SelectAndCache(Now(), order, stored, key);
      if redis {
        data := seq(|ids|, i requires 0 <= i < |ids| reads this => if ids[i] in cache then Some(cache[ids[i]]) else None);
      }
      var cachedData, idsNullData := SplitHits(ids, data, cached);
      if redis {
        if |idsNullData| == 0 {
          NothingMissed(order, idsNullData, table);
          assert RowsRead(ids, order, table, cached) == [] + cachedData == cachedData;
          return Some(cachedData);
        }
      }
      var dbResult := FindAll(order);
      r := Some(dbResult + cachedData);
      if redis {
        if stored {
          cache := SetAll(cache, dbResult, key);
        }
      }
    }

    method SplitHits(ids: seq<Id>, data: seq<Option<R>>, ghost cached: map<Id, R>) returns (hits: seq<R>, misses: seq<Id>)
      requires |data| == |ids|
      requires forall i :: 0 <= i < |ids| ==> data[i] == if ids[i] in cached then Some(cached[ids[i]]) else None
      ensures hits == Hits(ids, cached) && misses == Misses(ids, cached)
    {
      hits, misses := [], [];
      for i := 0 to |ids|
        invariant hits == Hits(ids[..i], cached) && misses == Misses(ids[..i], cached)
      {
        assert ids[..i + 1][..i] == ids[..i];
        if data[i] == None {
          misses := misses + [ids[i]];
        } else {
          hits := hits + [data[i].value];
        }
      }
      assert ids[..|ids|] == ids;
    }

    method FindAll(order: seq<Id>) returns (rows: seq<R>)
      ensures rows == Hits(order, table)
    {
      rows := [];
      for i := 0 to |order|
        invariant rows == Hits(order[..i], table)
      {
        assert order[..i + 1][..i] == order[..i];
        if order[i] in table {
          rows := rows + [table[order[i]]];
        }
      }
      assert order[..|order|] == order;
    }

    method SetAll(kept: map<Id, R>, rows: seq<R>, key: R -> Id) returns (all: map<Id, R>)
      ensures all == LastWins(kept, rows, key)
    {
      all := kept;
      for i := 0 to |rows|
        invariant all == LastWins(kept, rows[..i], key)
      {
        assert rows[..i + 1][..i] == rows[..i];
        all := all[key(rows[i]) := rows[i]];
      }
      assert rows[..|rows|] == rows;
    }
  }

  lemma NothingMissed<R>(order: seq<Id>, asked: seq<Id>, table: map<Id, R>)
    requires IsAnswer(order, asked, table) && asked == []
    ensures order == []
  {
    HeadIsIn(order);
  }

  lemma HeadIsIn(ids: seq<Id>)
    ensures ids != [] ==> ids[0] in ids
  {
  }

  // ---------- reading beside the cache ----------

  /** Rows are kept under their own keys. */
  ghost predicate Keyed<R>(kept: map<Id, R>, key: R -> Id) {
    forall id :: id in kept ==> key(kept[id]) == id
  }

  /** The cache does not contradict the table on an id. */
  predicate AgreeAt<R(==)>(table: map<Id, R>, cache: map<Id, R>, id: Id) {
    id in table && id in cache ==> table[id] == cache[id]
  }

  lemma {:induction false} HitsHold<R>(ids: seq<Id>, kept: map<Id, R>)
    ensures forall row :: row in Hits(ids, kept) ==> exists id :: id in ids && id in kept && kept[id] == row
    ensures forall id :: id in ids && id in kept ==> kept[id] in Hits(ids, kept)
  {
    if ids != [] {
      var n := |ids| - 1;
      HitsHold(ids[..n], kept);
      assert ids == ids[..n] + [ids[n]];
    }
  }

  lemma {:induction false} MissesHold<R>(ids: seq<Id>, kept: map<Id, R>)
    ensures forall id :: id in Misses(ids, kept) <==> id in ids && id !in kept
  {
    if ids != [] {
      var n := |ids| - 1;
      MissesHold(ids[..n], kept);
      assert ids == ids[..n] + [ids[n]];
    }
  }

  /** Every row of a read has an id that was asked for; it is the cache's row where the cache has
      one, and else the table's. */
  lemma RowsReadFor<R>(ids: seq<Id>, order: seq<Id>, table: map<Id, R>, cached: map<Id, R>, key: R -> Id, row: R)
    requires Keyed(table, key) && Keyed(cached, key) && IsAnswer(order, Misses(ids, cached), table)
    requires row in RowsRead(ids, order, table, cached)
    ensures key(row) in ids
    ensures if key(row) in cached then row == cached[key(row)] else key(row) in table && row == table[key(row)]
  {
    HitsHold(order, table);
    HitsHold(ids, cached);
    MissesHold(ids, cached);
  }

  /** And every id asked for that the table or the cache holds is answered. */
  lemma RowsReadAnswer<R>(ids: seq<Id>, order: seq<Id>, table: map<Id, R>, cached: map<Id, R>, id: Id)
    requires IsAnswer(order, Misses(ids, cached), table) && id in ids && (id in table || id in cached)
    ensures (if id in cached then cached[id] else table[id]) in RowsRead(ids, order, table, cached)
  {
    HitsHold(order, table);
    HitsHold(ids, cached);
    MissesHold(ids, cached);
  }

  lemma {:induction false} HitsInOrder<R>(a: seq<Id>, b: seq<Id>, kept: map<Id, R>)
    ensures Hits(a + b, kept) == Hits(a, kept) + Hits(b, kept)
    decreases |b|
  {
    if b == [] {
      assert a + b == a;
    } else {
      var n := |b| - 1;
      assert (a + b)[..|a + b| - 1] == a + b[..n];
      HitsInOrder(a, b[..n], kept);
    }
  }

  lemma {:induction false} AllHit<R>(ids: seq<Id>, kept: map<Id, R>)
    requires forall id :: id in ids ==> id in kept
    ensures |Hits(ids, kept)| == |ids| && forall i :: 0 <= i < |ids| ==> Hits(ids, kept)[i] == kept[ids[i]]
  {
    if ids != [] {
      var n := |ids| - 1;
      assert forall id :: id in ids[..n] ==> id in ids;
      AllHit(ids[..n], kept);
    }
  }

  lemma OneHit<R>(id: Id, kept: map<Id, R>)
    ensures Hits([id], kept) == if id in kept then [kept[id]] else []
  {
    assert [id][..0] == [];
  }

  /** The order of a bulk read: first what the database had to be asked for, in its order, and then what
      was cached, in the order of the ids that were asked for. */
  lemma RowsInOrder<R>(a: seq<Id>, id: Id, b: seq<Id>, order: seq<Id>, table: map<Id, R>, cached: map<Id, R>)
    requires IsAnswer(order, Misses(a + [id] + b, cached), table)
    ensures var rows := RowsRead(a + [id] + b, order, table, cached);
            && |rows| >= |order| && (forall i :: 0 <= i < |order| ==> rows[i] == table[order[i]])
            && rows[|order|..] == Hits(a, cached) + (if id in cached then [cached[id]] else []) + Hits(b, cached)
  {
    AllHit(order, table);
    HitsInOrder(a + [id], b, cached);
    HitsInOrder(a, [id], cached);
    OneHit(id, cached);
  }

  /** The lookup table made of a bulk read has the table's row for an id that the table holds if and
      only if the cache does not contradict the table there. */
  lemma LookupIsTheTables<R>(ids: seq<Id>, order: seq<Id>, table: map<Id, R>, cached: map<Id, R>, key: R -> Id, id: Id)
    requires Keyed(table, key) && Keyed(cached, key) && IsAnswer(order, Misses(ids, cached), table)
    requires id in table
    ensures var mixed := Lookup(RowsRead(ids, order, table, cached), key);
            (id in mixed <==> id in ids) && (id in ids ==> (mixed[id] == table[id] <==> AgreeAt(table, cached, id)))
  {
    var rows := RowsRead(ids, order, table, cached);
    LookupHolds(rows, key);
    if id in ids {
      RowsReadAnswer(ids, order, table, cached, id);
    }
    if id in Lookup(rows, key) {
      RowsReadFor(ids, order, table, cached, key, Lookup(rows, key)[id]);
    }
  }

  /** So a bulk read makes, on an id the database still holds, the lookup that reading the database
      alone makes, if and only if the cache does not contradict the database there, whichever of the
      possibly repeated ids hit the cache. */
  lemma ReadEqualsDatabase<R>(ids: seq<Id>, order: seq<Id>, dbOrder: seq<Id>, table: map<Id, R>, cached: map<Id, R>, key: R -> Id, id: Id)
    requires Keyed(table, key) && Keyed(cached, key)
    requires IsAnswer(order, Misses(ids, cached), table)
    requires IsAnswer(dbOrder, Misses(ids, Cached(false, cached)), table)
    requires id in table
    ensures var mixed, pure := Lookup(RowsRead(ids, order, table, cached), key), Lookup(RowsRead(ids, dbOrder, table, Cached(false, cached)), key);
            && (id in mixed <==> id in ids) && (id in pure <==> id in ids)
            && (id in ids ==> pure[id] == table[id] && (mixed[id] == pure[id] <==> AgreeAt(table, cached, id)))
  {
    LookupIsTheTables(ids, order, table, cached, key, id);
    LookupIsTheTables(ids, dbOrder, table, Cached(false, cached), key, id);
  }

  // ---------- runs ----------

  /** Rows on their way into the cache: those of a write are taken only where there are none. */
  datatype Pending<R> = Pending(rows: seq<R>, onlyNew: bool)

  datatype Store<R> = Store(table: map<Id, R>, cache: map<Id, R>, redis: bool, pending: seq<Pending<R>>)

  /** A write inserts its rows, a read selects the rows it missed, and both then go on to cache
      their rows, which may succeed or fail at any later time. `expired` leave the cache, `pruned`
      leave the table; Redis goes down and comes back. */
  datatype StoreEvent<R> =
    | Insert(rows: seq<R>)
    | Select(order: seq<Id>)
    | Cache(k: nat, stored: bool)
    | Expire(expired: set<Id>)
    | Prune(pruned: set<Id>)
    | Redis(up: bool)

  function CacheWith<R>(cache: map<Id, R>, p: Pending<R>, key: R -> Id): map<Id, R> {
    if p.onlyNew then FirstWins(cache, p.rows, key) else LastWins(cache, p.rows, key)
  }

  function StoreStep<R>(s: Store<R>, e: StoreEvent<R>, key: R -> Id): Store<R> {
    match e
    case Insert(rows) => s.(table := FirstWins(s.table, rows, key), pending := s.pending + [Pending(rows, true)])
    case Select(order) => s.(pending := s.pending + [Pending(Hits(order, s.table), false)])
    case Cache(k, stored) =>
      if k >= |s.pending| then s
      else s.(cache := if s.redis && stored then CacheWith(s.cache, s.pending[k], key) else s.cache,
              pending := s.pending[..k] + s.pending[k + 1..])
    case Expire(expired) => s.(cache := s.cache - expired)
    case Prune(pruned) => s.(table := s.table - pruned)
    case Redis(up) => s.(redis := up)
  }

  /** A select whose rows are cached at once. */
  lemma SelectAndCache<R>(s: Store<R>, order: seq<Id>, stored: bool, key: R -> Id)
    requires s.pending == []
    ensures StoreStep(StoreStep(s, Select(order), key), Cache(0, stored), key)
         == s.(cache := if s.redis && stored then LastWins(s.cache, Hits(order, s.table), key) else s.cache)
  {
    var p := [Pending(Hits(order, s.table), false)];
    assert [] + p == p && p[..0] + p[1..] == [];
  }

  function StoreRun<R>(s: Store<R>, events: seq<StoreEvent<R>>, key: R -> Id): Store<R> {
    if events == [] then s
    else StoreStep(StoreRun(s, events[..|events| - 1], key), events[|events| - 1], key)
  }

  /** Whatever is written, rows stay under their own keys. */
  ghost predicate KeyedStore<R>(s: Store<R>, key: R -> Id) {
    Keyed(s.table, key) && Keyed(s.cache, key)
  }

  lemma {:induction false} WinsStayKeyed<R>(kept: map<Id, R>, rows: seq<R>, key: R -> Id)
    requires Keyed(kept, key)
    ensures Keyed(FirstWins(kept, rows, key), key) && Keyed(LastWins(kept, rows, key), key)
  {
    if rows != [] {
      WinsStayKeyed(kept, rows[..|rows| - 1], key);
    }
  }

  lemma StepStaysKeyed<R>(s: Store<R>, e: StoreEvent<R>, key: R -> Id)
    requires KeyedStore(s, key)
    ensures KeyedStore(StoreStep(s, e, key), key)
  {
    if e.Insert? {
      WinsStayKeyed(s.table, e.rows, key);
    } else if e.Cache? && e.k < |s.pending| {
      WinsStayKeyed(s.cache, s.pending[e.k].rows, key);
    }
  }

  lemma {:induction false} RunsStayKeyed<R>(s: Store<R>, events: seq<StoreEvent<R>>, key: R -> Id)
    requires KeyedStore(s, key)
    ensures KeyedStore(StoreRun(s, events, key), key)
  {
    if events != [] {
      var n := |events| - 1;
      RunsStayKeyed(s, events[..n], key);
      StepStaysKeyed(StoreRun(s, events[..n], key), events[n], key);
    }
  }

  /** A bulk read that asks the cache at one time of a run, and the database at any later time, is
      on an id that the database holds the same as reading the database alone, if and only if what
      was cached when it was asked for is what the database now holds. Nothing is assumed of the
      writes: they may be late, fail, and bring different rows for one id. */
  lemma RunsReadAlike<R>(s: Store<R>, events: seq<StoreEvent<R>>, asked: nat, key: R -> Id,
                         ids: seq<Id>, order: seq<Id>, dbOrder: seq<Id>, id: Id)
    requires KeyedStore(s, key) && asked <= |events|
    requires var early, table := StoreRun(s, events[..asked], key), StoreRun(s, events, key).table;
             && IsAnswer(order, Misses(ids, Cached(early.redis, early.cache)), table)
             && IsAnswer(dbOrder, Misses(ids, Cached(false, early.cache)), table)
             && id in table
    ensures var early, table := StoreRun(s, events[..asked], key), StoreRun(s, events, key).table;
            var mixed := Lookup(RowsRead(ids, order, table, Cached(early.redis, early.cache)), key);
            var pure := Lookup(RowsRead(ids, dbOrder, table, Cached(false, early.cache)), key);
            && (id in mixed <==> id in ids) && (id in pure <==> id in ids)
            && (id in ids ==>
                  pure[id] == table[id]
                  && (mixed[id] == pure[id] <==> AgreeAt(table, Cached(early.redis, early.cache), id)))
  {
    RunsStayKeyed(s, events[..asked], key);
    RunsStayKeyed(s, events, key);
    var early, table := StoreRun(s, events[..asked], key), StoreRun(s, events, key).table;
    ReadEqualsDatabase(ids, order, dbOrder, table, Cached(early.redis, early.cache), key, id);
  }

  // ---------- when cache and table agree ----------

  /** The row a map has for an id, and the first and last of a list's rows for it. */
  function RowAt<R>(kept: map<Id, R>, id: Id): Option<R> {
    if id in kept then Some(kept[id]) else None
  }

  function FirstRow<R>(rows: seq<R>, key: R -> Id, id: Id): Option<R> {
    if rows == [] then None
    else
      var before := FirstRow(rows[..|rows| - 1], key, id);
      if before.None? && key(rows[|rows| - 1]) == id then Some(rows[|rows| - 1]) else before
  }

  function LastRow<R>(rows: seq<R>, key: R -> Id, id: Id): Option<R> {
    if rows == [] then None
    else if key(rows[|rows| - 1]) == id then Some(rows[|rows| - 1])
    else LastRow(rows[..|rows| - 1], key, id)
  }

  lemma {:induction false} WinsAt<R>(kept: map<Id, R>, rows: seq<R>, key: R -> Id, id: Id)
    ensures RowAt(FirstWins(kept, rows, key), id) == if id in kept then Some(kept[id]) else FirstRow(rows, key, id)
    ensures RowAt(LastWins(kept, rows, key), id)
         == if LastRow(rows, key, id).Some? then LastRow(rows, key, id) else RowAt(kept, id)
  {
    if rows != [] {
      WinsAt(kept, rows[..|rows| - 1], key, id);
    }
  }

  /** What an event does to the rows for one id. */
  datatype Change<R> = Nothing | IntoTable(row: R) | IntoCache(row: R) | OutOfOne

  function ChangeOf<R>(row: Option<R>, make: R -> Change<R>): Change<R> {
    if row.Some? then make(row.value) else Nothing
  }

  function ChangeAt<R>(s: Store<R>, e: StoreEvent<R>, key: R -> Id, id: Id): Change<R> {
    match e
    case Insert(rows) => if id in s.table then Nothing else ChangeOf(FirstRow(rows, key, id), (r: R) => IntoTable(r))
    case Cache(k, stored) =>
      if k >= |s.pending| || !s.redis || !stored then Nothing
      else
        var p := s.pending[k];
        if p.onlyNew && id in s.cache then Nothing
        else ChangeOf(if p.onlyNew then FirstRow(p.rows, key, id) else LastRow(p.rows, key, id), (r: R) => IntoCache(r))
    case Expire(expired) => if id in expired && id in s.cache then OutOfOne else Nothing
    case Prune(pruned) => if id in pruned && id in s.table then OutOfOne else Nothing
    case _ => Nothing
  }

  /** A row that enters the table or the cache is the one that the other has, if it has one. */
  predicate Harmless<R(==)>(s: Store<R>, change: Change<R>, id: Id) {
    match change
    case IntoTable(row) => id in s.cache ==> s.cache[id] == row
    case IntoCache(row) => id in s.table ==> s.table[id] == row
    case _ => true
  }

  /** One event, with any number of rows, cached at once or later: afterwards cache and table agree
      on an id if and only if the change it made there was harmless, or it made none and they agreed
      before. */
  lemma StepAgreesAt<R>(s: Store<R>, e: StoreEvent<R>, key: R -> Id, id: Id)
    ensures var s', change := StoreStep(s, e, key), ChangeAt(s, e, key, id);
            AgreeAt(s'.table, s'.cache, id)
            <==> if change.Nothing? then AgreeAt(s.table, s.cache, id) else Harmless(s, change, id)
  {
    var s' := StoreStep(s, e, key);
    if e.Insert? {
      WinsAt(s.table, e.rows, key, id);
      assert RowAt(s'.table, id) == if id in s.table then Some(s.table[id]) else FirstRow(e.rows, key, id);
    } else if e.Cache? && e.k < |s.pending| && s.redis && e.stored {
      CacheAgreesAt(s, e, key, id);
    }
  }

  lemma CacheAgreesAt<R>(s: Store<R>, e: StoreEvent<R>, key: R -> Id, id: Id)
    requires e.Cache? && e.k < |s.pending| && s.redis && e.stored
    ensures var s', change := StoreStep(s, e, key), ChangeAt(s, e, key, id);
            AgreeAt(s'.table, s'.cache, id)
            <==> if change.Nothing? then AgreeAt(s.table, s.cache, id) else Harmless(s, change, id)
  {
    var s', p := StoreStep(s, e, key), s.pending[e.k];
    WinsAt(s.cache, p.rows, key, id);
    if p.onlyNew {
      assert RowAt(s'.cache, id) == if id in s.cache then Some(s.cache[id]) else FirstRow(p.rows, key, id);
    } else {
      assert RowAt(s'.cache, id) == if LastRow(p.rows, key, id).Some? then LastRow(p.rows, key, id) else RowAt(s.cache, id);
    }
  }

  /** The last change that a run made to the rows for an id was harmless, or it made none and they
      agreed at the start. */
  predicate LastChangeHarmless<R(==)>(s: Store<R>, events: seq<StoreEvent<R>>, key: R -> Id, id: Id) {
    if events == [] then AgreeAt(s.table, s.cache, id)
    else
      var before := StoreRun(s, events[..|events| - 1], key);
      var change := ChangeAt(before, events[|events| - 1], key, id);
      if change.Nothing? then LastChangeHarmless(s, events[..|events| - 1], key, id) else Harmless(before, change, id)
  }

  /** After any run, with different rows for one id and with late and failed cache writes, cache and
      table agree on an id if and only if the last change there was harmless. */
  lemma {:induction false} RunAgreesAt<R>(s: Store<R>, events: seq<StoreEvent<R>>, key: R -> Id, id: Id)
    ensures var s' := StoreRun(s, events, key);
            AgreeAt(s'.table, s'.cache, id) <==> LastChangeHarmless(s, events, key, id)
  {
    if events != [] {
      var n := |events| - 1;
      RunAgreesAt(s, events[..n], key, id);
      StepAgreesAt(StoreRun(s, events[..n], key), events[n], key, id);
    }
  }

  /** A failed cache write and a second row for the id: the table keeps the first row and the cache
      takes the second. */
  function FailedCacheWrite<R>(a: R, b: R): seq<StoreEvent<R>> {
    [Insert([a])] + [Cache(0, false)] + [Insert([b])] + [Cache(0, true)]
  }

  /** The same without any failure, when the first row expires in the cache before the second comes. */
  function ExpiredFirstRow<R>(a: R, b: R, id: Id): seq<StoreEvent<R>> {
    [Insert([a])] + [Cache(0, true)] + [Expire({id})] + [Insert([b])] + [Cache(0, true)]
  }

  lemma OneMoreEvent<R>(s: Store<R>, events: seq<StoreEvent<R>>, e: StoreEvent<R>, key: R -> Id)
    ensures StoreRun(s, events + [e], key) == StoreStep(StoreRun(s, events, key), e, key)
  {
    assert (events + [e])[..|events|] == events;
  }

  /** A store with Redis in which a row was inserted and its cache write has come to an end. */
  lemma SingleWrite<R>(s: Store<R>, row: R, stored: bool, key: R -> Id)
    requires s.redis && s.pending == []
    ensures StoreStep(StoreStep(s, Insert([row]), key), Cache(0, stored), key)
         == s.(table := if key(row) in s.table then s.table else s.table[key(row) := row],
               cache := if !stored || key(row) in s.cache then s.cache else s.cache[key(row) := row])
  {
    assert [row][..0] == [];
    assert FirstWins(s.table, [row], key) == if key(row) in s.table then s.table else s.table[key(row) := row];
    assert FirstWins(s.cache, [row], key) == if key(row) in s.cache then s.cache else s.cache[key(row) := row];
    var p := [Pending([row], true)];
    assert [] + p == p && p[..0] + p[1..] == [];
  }

  lemma SecondRowAfterFailure<R>(a: R, b: R, key: R -> Id)
    requires key(a) == key(b)
    ensures var id := key(a);
            StoreRun(Store(map[], map[], true, []), FailedCacheWrite(a, b), key) == Store(map[id := a], map[id := b], true, [])
  {
    var empty, id := Store(map[], map[], true, []), key(a);
    OneMoreEvent(empty, [], Insert([a]), key);
    assert [] + [Insert([a])] == [Insert([a])];
    OneMoreEvent(empty, [Insert([a])], Cache(0, false), key);
    SingleWrite(empty, a, false, key);
    OneMoreEvent(empty, [Insert([a])] + [Cache(0, false)], Insert([b]), key);
    OneMoreEvent(empty, [Insert([a])] + [Cache(0, false)] + [Insert([b])], Cache(0, true), key);
    SingleWrite(Store(map[id := a], map[], true, []), b, true, key);
  }

  lemma SecondRowAfterExpiry<R>(a: R, b: R, key: R -> Id)
    requires key(a) == key(b)
    ensures var id := key(a);
            StoreRun(Store(map[], map[], true, []), ExpiredFirstRow(a, b, id), key) == Store(map[id := a], map[id := b], true, [])
  {
    var empty, id := Store(map[], map[], true, []), key(a);
    OneMoreEvent(empty, [], Insert([a]), key);
    assert [] + [Insert([a])] == [Insert([a])];
    OneMoreEvent(empty, [Insert([a])], Cache(0, true), key);
    SingleWrite(empty, a, true, key);
    OneMoreEvent(empty, [Insert([a])] + [Cache(0, true)], Expire({id}), key);
    assert map[id := a] - {id} == map[];
    OneMoreEvent(empty, [Insert([a])] + [Cache(0, true)] + [Expire({id})], Insert([b]), key);
    OneMoreEvent(empty, [Insert([a])] + [Cache(0, true)] + [Expire({id})] + [Insert([b])], Cache(0, true), key);
    SingleWrite(Store(map[id := a], map[], true, []), b, true, key);
  }

  // ---------- when all writes for an id carry one row ----------

  /** A map in which every row is the one that `truth` gives for its key. */
  ghost predicate Truthful<R>(kept: map<Id, R>, truth: map<Id, R>, key: R -> Id) {
    forall id :: id in kept ==> id in truth && kept[id] == truth[id] && key(kept[id]) == id
  }

  ghost predicate TrueRows<R>(rows: seq<R>, truth: map<Id, R>, key: R -> Id) {
    forall row :: row in rows ==> key(row) in truth && truth[key(row)] == row
  }

  lemma {:induction false} InsertsStayTruthful<R>(kept: map<Id, R>, rows: seq<R>, truth: map<Id, R>, key: R -> Id)
    requires Truthful(kept, truth, key) && TrueRows(rows, truth, key)
    ensures Truthful(FirstWins(kept, rows, key), truth, key)
    ensures Truthful(LastWins(kept, rows, key), truth, key)
  {
    if rows != [] {
      InsertsStayTruthful(kept, rows[..|rows| - 1], truth, key);
      assert rows[|rows| - 1] in rows;
    }
  }

  /** Everything in the store, and on its way into the cache, is as `truth` says. */
  ghost predicate TruthfulStore<R>(s: Store<R>, truth: map<Id, R>, key: R -> Id) {
    && Truthful(s.table, truth, key) && Truthful(s.cache, truth, key)
    && forall p :: p in s.pending ==> TrueRows(p.rows, truth, key)
  }

  lemma CacheStaysTruthful<R>(s: Store<R>, k: nat, stored: bool, truth: map<Id, R>, key: R -> Id)
    requires TruthfulStore(s, truth, key)
    ensures TruthfulStore(StoreStep(s, Cache(k, stored), key), truth, key)
  {
    if k < |s.pending| {
      assert s.pending[k] in s.pending;
      InsertsStayTruthful(s.cache, s.pending[k].rows, truth, key);
    }
  }

  lemma StepStaysTruthful<R>(s: Store<R>, e: StoreEvent<R>, truth: map<Id, R>, key: R -> Id)
    requires TruthfulStore(s, truth, key) && (e.Insert? ==> TrueRows(e.rows, truth, key))
    ensures TruthfulStore(StoreStep(s, e, key), truth, key)
  {
    match e
    case Insert(rows) => InsertsStayTruthful(s.table, rows, truth, key);
    case Select(order) => HitsHold(order, s.table);
    case Cache(k, stored) => CacheStaysTruthful(s, k, stored, truth, key);
    case _ =>
  }

  /** All writes of a run for one id carry the same row. */
  ghost predicate OneRowPerId<R>(events: seq<StoreEvent<R>>, truth: map<Id, R>, key: R -> Id) {
    forall k :: 0 <= k < |events| && events[k].Insert? ==> TrueRows(events[k].rows, truth, key)
  }

  /** After any run in which the writes for one id agree, whatever reads, expiries, prunes, outages
      and late or failed Redis writes there are, cache and table hold the same rows. */
  lemma {:induction false} RunsAgree<R>(s: Store<R>, events: seq<StoreEvent<R>>, truth: map<Id, R>, key: R -> Id)
    requires TruthfulStore(s, truth, key) && OneRowPerId(events, truth, key)
    ensures TruthfulStore(StoreRun(s, events, key), truth, key)
  {
    if events != [] {
      var n := |events| - 1;
      RunsAgree(s, events[..n], truth, key);
      StepStaysTruthful(StoreRun(s, events[..n], key), events[n], truth, key);
    }
  }

  /** In such a run, asking the cache at one time and the database at a later one is reading the
      database alone, on every id that is there. */
  lemma OneRowReadsAlike<R>(s: Store<R>, events: seq<StoreEvent<R>>, asked: nat, truth: map<Id, R>, key: R -> Id,
                            ids: seq<Id>, order: seq<Id>, dbOrder: seq<Id>, id: Id)
    requires TruthfulStore(s, truth, key) && OneRowPerId(events, truth, key) && asked <= |events|
    requires var early, table := StoreRun(s, events[..asked], key), StoreRun(s, events, key).table;
             && IsAnswer(order, Misses(ids, Cached(early.redis, early.cache)), table)
             && IsAnswer(dbOrder, Misses(ids, Cached(false, early.cache)), table)
             && id in table
    ensures var early, table := StoreRun(s, events[..asked], key), StoreRun(s, events, key).table;
            var mixed := Lookup(RowsRead(ids, order, table, Cached(early.redis, early.cache)), key);
            var pure := Lookup(RowsRead(ids, dbOrder, table, Cached(false, early.cache)), key);
            && (id in mixed <==> id in ids) && (id in pure <==> id in ids)
            && (id in ids ==> mixed[id] == pure[id] == table[id])
  {
    RunsAgree(s, events[..asked], truth, key);
    RunsAgree(s, events, truth, key);
    RunsReadAlike(s, events, asked, key, ids, order, dbOrder, id);
  }
}
