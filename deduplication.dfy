/** The sent-history store: a table of the products already sent, one row per ASIN, trimmed to the
    rows sent most recently. The table lives in a database file; the service opens it, queries it,
    inserts into it and evicts from it. */
module Deduplication {
  import opened Wrappers
  import opened Offers
  import opened Sequences

  /** `MAX_HISTORY`: how many rows the table keeps after an eviction. */
  const MaxHistory: nat := 100
  /** The stored title is cut to this many characters. */
  const TitleLimit: nat := 200
  const NoTitle: string := "Sem t\U{00ED}tulo"
  const NoCategory: string := "Sem categoria"
  /** The `limit` of `getRecentProducts` when the caller gives none. */
  const DefaultRecentLimit: int := 10

  /** One row of `sent_products`: `id` is the AUTOINCREMENT key and `sentAt` the insertion time. */
  datatype Row = Row(
    id: nat,
    asin: string,
    title: string,
    price: real,
    discount: real,
    category: string,
    sentAt: int)

  /** The columns `getRecentProducts` selects. */
  datatype Recent = Recent(asin: string, title: string, category: string, discount: real, sentAt: int)

  /** The `db` handle: null before `initialize`, an open connection, or a closed (or failed) one. */
  datatype DbState = Unopened | Open | Closed

  /** Why a call rejects: no handle yet (a TypeError on null), a handle that is closed, or an open
      that failed. */
  datatype DbError = NoDatabase | DatabaseClosed | OpenFailed

  datatype Status = Done | Failed(error: DbError)

  /** The error a query meets on a handle that is not open. */
  function StateError(state: DbState): (e: DbError)
    requires state != Open
    ensures e == NoDatabase <==> state == Unopened
  {
    if state == Unopened then NoDatabase else DatabaseClosed
  }

  function Min(a: nat, b: nat): nat { if a <= b then a else b }

  /** What the table guarantees: every ASIN is set and UNIQUE, ids grow in table order and stay
      below the next id, and rows were inserted with a clock that never goes back. */
  predicate TableInvariant(rows: seq<Row>, nextId: nat) {
    && (forall i :: 0 <= i < |rows| ==> rows[i].asin != "" && rows[i].id < nextId)
    && (forall i, j :: 0 <= i < j < |rows| ==>
          rows[i].id < rows[j].id && rows[i].asin != rows[j].asin && rows[i].sentAt <= rows[j].sentAt)
  }

  /** No row was sent after `now`. */
  predicate StampedBy(rows: seq<Row>, now: int) {
    forall i :: 0 <= i < |rows| ==> rows[i].sentAt <= now
  }

  function AsinsOfRows(rows: seq<Row>): set<string> {
    set r | r in rows :: r.asin
  }

  /** The row `markAsSent` inserts for a product: the title cut to 200 characters or 'Sem título'
      when empty, a falsy price stored as 0, and 'Sem categoria' for an empty category. */
  function RowFor(id: nat, p: Product, now: int): (r: Row)
    requires HasAsin(p)
    ensures r.id == id && r.asin == p.asin.value && r.sentAt == now
    ensures r.title != "" && |r.title| <= TitleLimit
    ensures p.title != "" ==> |r.title| == Min(|p.title|, TitleLimit) && r.title == p.title[..|r.title|]
    ensures p.title == "" ==> r.title == NoTitle
    ensures r.price == p.price.GetOr(0.0) && r.discount == p.discount
    ensures r.category != "" && (p.category != "" ==> r.category == p.category)
  {
    var title :=
      if p.title == "" then NoTitle
      else if |p.title| <= TitleLimit then p.title
      else p.title[..TitleLimit];
    var price := if p.price.Some? && p.price.value != 0.0 then p.price.value else 0.0;
    var discount := if p.discount != 0.0 then p.discount else 0.0;
    var category := if p.category != "" then p.category else NoCategory;
    Row(id, p.asin.value, title, price, discount, category, now)
  }

  /** `INSERT OR IGNORE` of each product with an ASIN, in order: a product whose ASIN is already in
      the table (stored before, or inserted earlier in the same batch) is skipped. */
  function InsertOrIgnore(rows: seq<Row>, nextId: nat, ps: seq<Product>, now: int): (r: seq<Row>)
    ensures |rows| <= |r| && r[..|rows|] == rows
    decreases |ps|
  {
    if ps == [] then rows
    else if HasAsin(ps[0]) && ps[0].asin.value !in AsinsOfRows(rows) then
      var grown := rows + [RowFor(nextId, ps[0], now)];
      assert grown[..|rows|] == rows;
      InsertOrIgnore(grown, nextId + 1, ps[1..], now)
    else InsertOrIgnore(rows, nextId, ps[1..], now)
  }

  /** `cleanOldEntries`: keeps the `MAX_HISTORY` rows sent last, that is the table's tail. */
  function Evict(rows: seq<Row>): (r: seq<Row>)
    ensures |r| == Min(|rows|, MaxHistory)
    ensures r == rows[|rows| - |r|..]
  {
    if |rows| <= MaxHistory then rows else rows[|rows| - MaxHistory..]
  }

  /** The products of `ps` that `filterNewProducts` keeps, in order: those with an ASIN that is not in
      the table. */
  function NewProducts(rows: seq<Row>, ps: seq<Product>): (r: seq<Product>)
    ensures |r| <= |ps|
    ensures forall q :: q in r ==> q in ps && HasAsin(q) && q.asin.value !in AsinsOfRows(rows)
  {
    if ps == [] then []
    else
      var head := if HasAsin(ps[0]) && ps[0].asin.value !in AsinsOfRows(rows) then [ps[0]] else [];
      head + NewProducts(rows, ps[1..])
  }

  /** How many rows `LIMIT limit` returns from a table of `n`: a negative limit means no limit. */
  function RecentLimit(limit: int, n: nat): (k: nat)
    ensures k <= n
    ensures 0 <= limit ==> k == Min(limit, n)
    ensures limit < 0 ==> k == n
  {
    if limit < 0 || limit > n then n else limit
  }

  function ToRecent(row: Row): Recent {
    Recent(row.asin, row.title, row.category, row.discount, row.sentAt)
  }

  /** The last `k` rows of the table, the newest first. */
  function NewestFirst(rows: seq<Row>, k: nat): (r: seq<Recent>)
    requires k <= |rows|
    ensures |r| == k
    decreases k
  {
    if k == 0 then [] else [ToRecent(rows[|rows| - 1])] + NewestFirst(rows[..|rows| - 1], k - 1)
  }

  /** The service over one database file. `rows` is the table in that file, in insertion order. */
  class DeduplicationService {
    var state: DbState
    var rows: seq<Row>
    var nextId: nat

    predicate Valid()
      reads this
    {
      TableInvariant(rows, nextId)
    }

    /** A service over a file whose table is `fileRows`; the handle is not opened yet. */
    constructor(fileRows: seq<Row>, fileNextId: nat)
      requires TableInvariant(fileRows, fileNextId)
      ensures Valid()
      ensures state == Unopened && rows == fileRows && nextId == fileNextId
    {
      state := Unopened;
      rows := fileRows;
      nextId := fileNextId;
    }

    /** `initialize`: opens the file and creates the table if it is missing; `openOk` says whether
        opening succeeds. A failed open leaves a handle no query can use. */
    method Initialize(openOk: bool) returns (status: Status)
      requires Valid()
      modifies this
      ensures Valid() && rows == old(rows) && nextId == old(nextId)
      ensures openOk ==> state == Open && status == Done
      ensures !openOk ==> state == Closed && status == Failed(OpenFailed)
    {
      if openOk {
        state := Open;
        status := Done;
      } else {
        state := Closed;
        status := Failed(OpenFailed);
      }
    }

    /** `wasRecentlySent`: whether some row has this ASIN. */
    method WasRecentlySent(asin: string) returns (r: Result<bool, DbError>)
      ensures state == Open ==> r == Success(asin in AsinsOfRows(rows))
      ensures state == Open ==> (r.value <==> exists i :: 0 <= i < |rows| && rows[i].asin == asin)
      ensures state != Open ==> r == Failure(StateError(state))
    {
      if state != Open {
        return Failure(StateError(state));
      }
      r := Success(asin in AsinsOfRows(rows));
      if r.value {
        var row :| row in rows && row.asin == asin;
      }
    }

    /** `filterNewProducts`: asks about each product with an ASIN in turn and keeps the unsent ones;
        the first query that rejects makes the whole call reject. */
    method FilterNewProducts(products: seq<Product>) returns (r: Result<seq<Product>, DbError>)
      ensures state == Open ==> r == Success(NewProducts(rows, products))
      ensures state != Open ==>
        r == if exists p :: p in products && HasAsin(p) then Failure(StateError(state)) else Success([])
    {
      var newProducts := [];
      var i := 0;
      while i < |products|
        invariant 0 <= i <= |products|
        invariant state == Open ==> KeptSoFar(rows, products, i, newProducts)
        invariant state != Open ==> newProducts == [] && NoAsinBefore(products, i)
      {
        var product := products[i];
        if state == Open {
          KeptStep(rows, products, i, newProducts);
        }
        if !HasAsin(product) {
          i := i + 1;
          continue;
        }
        var alreadySent := WasRecentlySent(product.asin.value);
        if alreadySent.Failure? {
          assert product in products;
          return Failure(alreadySent.error);
        }
        if !alreadySent.value {
          newProducts := newProducts + [product];
        }
        i := i + 1;
      }
      if state == Open {
        KeptDone(rows, products, newProducts);
      } else {
        NoAsinDone(products);
      }
      return Success(newProducts);
    }

    /** `markAsSent`: an empty list does nothing; otherwise one `INSERT OR IGNORE` per product with an
        ASIN, stamped `now`, followed by `cleanOldEntries`. */
    method MarkAsSent(products: seq<Product>, now: int) returns (status: Status)
      requires Valid() && StampedBy(rows, now)
      modifies this
      ensures Valid() && state == old(state)
      ensures products == [] ==> status == Done && rows == old(rows) && nextId == old(nextId)
      ensures products != [] && old(state) != Open ==>
        status == Failed(StateError(old(state))) && rows == old(rows) && nextId == old(nextId)
      ensures products != [] && old(state) == Open ==>
        var inserted := InsertOrIgnore(old(rows), old(nextId), products, now);
        && status == Done
        && rows == Evict(inserted)
        && nextId == old(nextId) + (|inserted| - |old(rows)|)
    {
      if products == [] {
        return Done;
      }
      if state != Open {
        return Failed(StateError(state));
      }
      ghost var inserted := InsertOrIgnore(rows, nextId, products, now);
      ghost var added := nextId - |rows|;
      var table, id := rows, nextId;
      var i := 0;
      while i < |products|
        invariant 0 <= i <= |products|
        invariant InsertedSoFar(table, id, products, i, now, inserted, added)
        modifies {}
      {
        var product := products[i];
        InsertLoopStep(table, id, products, i, now, inserted, added);
        if HasAsin(product) && product.asin.value !in AsinsOfRows(table) {
          table := table + [RowFor(id, product, now)];
          id := id + 1;
        }
        i := i + 1;
      }
      InsertLoopDone(table, id, products, now, inserted, added);
      rows, nextId := table, id;
      status := CleanOldEntries();
    }

    /** `cleanOldEntries`: deletes every row but the `MAX_HISTORY` sent last. */
    method CleanOldEntries() returns (status: Status)
      requires Valid()
      modifies this
      ensures Valid() && state == old(state) && nextId == old(nextId)
      ensures old(state) == Open ==> status == Done && rows == Evict(old(rows))
      ensures old(state) != Open ==> status == Failed(StateError(old(state))) && rows == old(rows)
    {
      if state != Open {
        return Failed(StateError(state));
      }
      EvictKeepsInvariant(rows, nextId);
      rows := Evict(rows);
      status := Done;
    }

    /** `getRecentProducts(limit = 10)`: the last `limit` rows, the newest first; `None` is a call
        without an argument. */
    method GetRecentProducts(limit: Option<int>) returns (r: Result<seq<Recent>, DbError>)
      requires Valid()
      ensures state == Open ==> r == Success(NewestFirst(rows, RecentLimit(limit.GetOr(DefaultRecentLimit), |rows|)))
      ensures state == Open && limit == None ==> |r.value| == Min(DefaultRecentLimit as nat, |rows|)
      ensures state != Open ==> r == Failure(StateError(state))
    {
      if state != Open {
        return Failure(StateError(state));
      }
      r := Success(NewestFirst(rows, RecentLimit(limit.GetOr(DefaultRecentLimit), |rows|)));
    }

    /** `clearHistory`: deletes every row; the id sequence is not reset. */
    method ClearHistory() returns (status: Status)
      requires Valid()
      modifies this
      ensures Valid() && state == old(state) && nextId == old(nextId)
      ensures old(state) == Open ==> status == Done && rows == []
      ensures old(state) != Open ==> status == Failed(StateError(old(state))) && rows == old(rows)
    {
      if state != Open {
        return Failed(StateError(state));
      }
      rows := [];
      status := Done;
    }

    /** `close`: without a handle it resolves and does nothing; an open handle is closed; closing a
        closed handle rejects. */
    method Close() returns (status: Status)
      requires Valid()
      modifies this
      ensures Valid() && rows == old(rows) && nextId == old(nextId)
      ensures old(state) == Unopened ==> status == Done && state == Unopened
      ensures old(state) == Open ==> status == Done && state == Closed
      ensures old(state) == Closed ==> status == Failed(DatabaseClosed) && state == Closed
    {
      match state
      case Unopened => status := Done;
      case Open =>
        state := Closed;
        status := Done;
      case Closed => status := Failed(DatabaseClosed);
    }
  }

  /** The insert loop of `markAsSent` after `i` products: what the remaining products insert leads
      to `inserted`, the next id has moved with the row count, and the table is well formed. */
  predicate InsertedSoFar(rows: seq<Row>, nextId: nat, ps: seq<Product>, i: nat, now: int, inserted: seq<Row>, added: int)
    requires i <= |ps|
  {
    && InsertOrIgnore(rows, nextId, ps[i..], now) == inserted
    && nextId - |rows| == added
    && TableInvariant(rows, nextId) && StampedBy(rows, now)
  }

  lemma InsertLoopStep(rows: seq<Row>, nextId: nat, ps: seq<Product>, i: nat, now: int, inserted: seq<Row>, added: int)
    requires i < |ps| && InsertedSoFar(rows, nextId, ps, i, now, inserted, added)
    ensures HasAsin(ps[i]) && ps[i].asin.value !in AsinsOfRows(rows) ==>
      InsertedSoFar(rows + [RowFor(nextId, ps[i], now)], nextId + 1, ps, i + 1, now, inserted, added)
    ensures !(HasAsin(ps[i]) && ps[i].asin.value !in AsinsOfRows(rows)) ==>
      InsertedSoFar(rows, nextId, ps, i + 1, now, inserted, added)
  {
    InsertStep(rows, nextId, ps, i, now);
    if HasAsin(ps[i]) && ps[i].asin.value !in AsinsOfRows(rows) {
      InsertOneKeeps(rows, nextId, ps[i], now);
    }
  }

  lemma InsertLoopDone(rows: seq<Row>, nextId: nat, ps: seq<Product>, now: int, inserted: seq<Row>, added: int)
    requires InsertedSoFar(rows, nextId, ps, |ps|, now, inserted, added)
    ensures rows == inserted && nextId - |rows| == added
    ensures TableInvariant(rows, nextId)
  {
    assert ps[|ps|..] == [];
  }

  /** One product of the insert loop: inserted when it has an ASIN the table lacks, else skipped. */
  lemma InsertStep(rows: seq<Row>, nextId: nat, ps: seq<Product>, i: nat, now: int)
    requires i < |ps|
    ensures InsertOrIgnore(rows, nextId, ps[i..], now)
      == if HasAsin(ps[i]) && ps[i].asin.value !in AsinsOfRows(rows)
         then InsertOrIgnore(rows + [RowFor(nextId, ps[i], now)], nextId + 1, ps[i + 1..], now)
         else InsertOrIgnore(rows, nextId, ps[i + 1..], now)
  {
    assert ps[i..][0] == ps[i] && ps[i..][1..] == ps[i + 1..];
  }

  /** Inserting a row for an ASIN not in the table, stamped no earlier than any row, keeps the table
      invariant with the next id moved on by one. */
  lemma InsertOneKeeps(rows: seq<Row>, nextId: nat, p: Product, now: int)
    requires TableInvariant(rows, nextId) && StampedBy(rows, now)
    requires HasAsin(p) && p.asin.value !in AsinsOfRows(rows)
    ensures TableInvariant(rows + [RowFor(nextId, p, now)], nextId + 1)
    ensures StampedBy(rows + [RowFor(nextId, p, now)], now)
  {
    var r := rows + [RowFor(nextId, p, now)];
    forall i, j | 0 <= i < j < |r|
      ensures r[i].id < r[j].id && r[i].asin != r[j].asin && r[i].sentAt <= r[j].sentAt
    {
      if j == |rows| {
        assert r[i] == rows[i] && rows[i] in rows;
      }
    }
  }

  /** `markAsSent` keeps the table well formed: ASINs stay unique, and the next id moves on by the
      number of rows inserted. */
  lemma {:induction false} InsertOrIgnoreKeeps(rows: seq<Row>, nextId: nat, ps: seq<Product>, now: int)
    requires TableInvariant(rows, nextId) && StampedBy(rows, now)
    ensures var r := InsertOrIgnore(rows, nextId, ps, now);
      TableInvariant(r, nextId + (|r| - |rows|)) && StampedBy(r, now)
    decreases |ps|
  {
    if ps != [] {
      if HasAsin(ps[0]) && ps[0].asin.value !in AsinsOfRows(rows) {
        InsertOneKeeps(rows, nextId, ps[0], now);
        InsertOrIgnoreKeeps(rows + [RowFor(nextId, ps[0], now)], nextId + 1, ps[1..], now);
      } else {
        InsertOrIgnoreKeeps(rows, nextId, ps[1..], now);
      }
    }
  }

  /** After `markAsSent`'s inserts, every product of the batch that has an ASIN has a row. */
  lemma {:induction false} InsertOrIgnoreCovers(rows: seq<Row>, nextId: nat, ps: seq<Product>, now: int)
    ensures forall p :: p in ps && HasAsin(p) ==> p.asin.value in AsinsOfRows(InsertOrIgnore(rows, nextId, ps, now))
    decreases |ps|
  {
    if ps != [] {
      var r := InsertOrIgnore(rows, nextId, ps, now);
      if HasAsin(ps[0]) && ps[0].asin.value !in AsinsOfRows(rows) {
        var grown := rows + [RowFor(nextId, ps[0], now)];
        InsertOrIgnoreCovers(grown, nextId + 1, ps[1..], now);
        assert r[..|grown|] == grown;
        assert r[|rows|] == grown[|rows|];
        assert r[|rows|] in r;
      } else {
        InsertOrIgnoreCovers(rows, nextId, ps[1..], now);
        if HasAsin(ps[0]) {
          var row :| row in rows && row.asin == ps[0].asin.value;
          assert row in r[..|rows|];
        }
      }
    }
  }

  /** The inserted rows are stamped `now`, carry an ASIN of the batch, and an ASIN that was not
      already stored: a stored ASIN keeps its old row. */
  predicate RowsAddedFor(before: seq<Row>, after: seq<Row>, ps: seq<Product>, now: int) {
    forall k :: |before| <= k < |after| ==>
      && after[k].sentAt == now
      && after[k].asin !in AsinsOfRows(before)
      && exists p :: p in ps && HasAsin(p) && p.asin.value == after[k].asin
  }

  lemma {:induction false} InsertOrIgnoreNewRows(rows: seq<Row>, nextId: nat, ps: seq<Product>, now: int)
    ensures RowsAddedFor(rows, InsertOrIgnore(rows, nextId, ps, now), ps, now)
    decreases |ps|
  {
    if ps != [] {
      var r := InsertOrIgnore(rows, nextId, ps, now);
      assert forall p :: p in ps[1..] ==> p in ps;
      if HasAsin(ps[0]) && ps[0].asin.value !in AsinsOfRows(rows) {
        var grown := rows + [RowFor(nextId, ps[0], now)];
        InsertOrIgnoreNewRows(grown, nextId + 1, ps[1..], now);
        assert r == InsertOrIgnore(grown, nextId + 1, ps[1..], now);
        RowsAddedWiden(grown, r, ps[1..], ps, now);
        assert r[..|grown|] == grown;
        assert AsinsOfRows(rows) <= AsinsOfRows(grown);
        forall k | |rows| <= k < |r|
          ensures r[k].sentAt == now && r[k].asin !in AsinsOfRows(rows)
          ensures exists p :: p in ps && HasAsin(p) && p.asin.value == r[k].asin
        {
          if k == |rows| {
            assert r[k] == grown[k];
            assert ps[0] in ps;
          }
        }
      } else {
        InsertOrIgnoreNewRows(rows, nextId, ps[1..], now);
        assert r == InsertOrIgnore(rows, nextId, ps[1..], now);
        RowsAddedWiden(rows, r, ps[1..], ps, now);
      }
    }
  }

  /** The rows added for a batch are added for any batch that contains it. */
  lemma RowsAddedWiden(before: seq<Row>, after: seq<Row>, qs: seq<Product>, ps: seq<Product>, now: int)
    requires RowsAddedFor(before, after, qs, now)
    requires forall p :: p in qs ==> p in ps
    ensures RowsAddedFor(before, after, ps, now)
  {
    forall k | |before| <= k < |after|
      ensures after[k].sentAt == now && after[k].asin !in AsinsOfRows(before)
      ensures exists p :: p in ps && HasAsin(p) && p.asin.value == after[k].asin
    {
      assert after[k].sentAt == now && after[k].asin !in AsinsOfRows(before);
      var p :| p in qs && HasAsin(p) && p.asin.value == after[k].asin;
      assert p in ps;
    }
  }

  /** Eviction keeps the table well formed. */
  lemma EvictKeepsInvariant(rows: seq<Row>, nextId: nat)
    requires TableInvariant(rows, nextId)
    ensures TableInvariant(Evict(rows), nextId)
  {
    if |rows| > MaxHistory {
      var d := |rows| - MaxHistory;
      var r := rows[d..];
      forall i, j | 0 <= i < j < |r|
        ensures r[i].id < r[j].id && r[i].asin != r[j].asin && r[i].sentAt <= r[j].sentAt
      {
        assert r[i] == rows[d + i] && r[j] == rows[d + j];
      }
    }
  }

  /** Every row eviction keeps was sent no earlier than any row it deletes. */
  lemma EvictKeepsLatest(rows: seq<Row>, nextId: nat)
    requires TableInvariant(rows, nextId)
    ensures forall i, j :: 0 <= i < |rows| - |Evict(rows)| <= j < |rows| ==> rows[i].sentAt <= rows[j].sentAt
  {
  }

  /** The loop of `filterNewProducts` on an open table after `i` products: the kept products and
      those still to come make up the answer. */
  predicate KeptSoFar(rows: seq<Row>, ps: seq<Product>, i: nat, acc: seq<Product>)
    requires i <= |ps|
  {
    acc + NewProducts(rows, ps[i..]) == NewProducts(rows, ps)
  }

  /** None of the first `i` products has an ASIN. */
  predicate NoAsinBefore(ps: seq<Product>, i: nat)
    requires i <= |ps|
  {
    forall k :: 0 <= k < i ==> !HasAsin(ps[k])
  }

  /** One product of the loop on an open table: skipped without an ASIN or when stored, else kept. */
  lemma KeptStep(rows: seq<Row>, ps: seq<Product>, i: nat, acc: seq<Product>)
    requires i < |ps| && KeptSoFar(rows, ps, i, acc)
    ensures !HasAsin(ps[i]) ==> KeptSoFar(rows, ps, i + 1, acc)
    ensures HasAsin(ps[i]) && ps[i].asin.value in AsinsOfRows(rows) ==> KeptSoFar(rows, ps, i + 1, acc)
    ensures HasAsin(ps[i]) && ps[i].asin.value !in AsinsOfRows(rows) ==> KeptSoFar(rows, ps, i + 1, acc + [ps[i]])
  {
    NewProductsStep(rows, ps, i);
    if HasAsin(ps[i]) && ps[i].asin.value !in AsinsOfRows(rows) {
      assert acc + [ps[i]] + NewProducts(rows, ps[i + 1..]) == acc + ([ps[i]] + NewProducts(rows, ps[i + 1..]));
    } else {
      assert [] + NewProducts(rows, ps[i + 1..]) == NewProducts(rows, ps[i + 1..]);
    }
  }

  lemma KeptDone(rows: seq<Row>, ps: seq<Product>, acc: seq<Product>)
    requires KeptSoFar(rows, ps, |ps|, acc)
    ensures acc == NewProducts(rows, ps)
  {
    assert ps[|ps|..] == [];
  }

  lemma NoAsinDone(ps: seq<Product>)
    requires NoAsinBefore(ps, |ps|)
    ensures !exists p :: p in ps && HasAsin(p)
  {
  }

  /** One step of `filterNewProducts`'s loop. */
  lemma NewProductsStep(rows: seq<Row>, ps: seq<Product>, i: nat)
    requires i < |ps|
    ensures NewProducts(rows, ps[i..])
      == (if HasAsin(ps[i]) && ps[i].asin.value !in AsinsOfRows(rows) then [ps[i]] else [])
         + NewProducts(rows, ps[i + 1..])
  {
    assert ps[i..][0] == ps[i] && ps[i..][1..] == ps[i + 1..];
  }

  /** `filterNewProducts` keeps the order of its input. */
  lemma {:induction false} NewProductsInOrder(rows: seq<Row>, ps: seq<Product>)
    ensures SubsequenceOf(NewProducts(rows, ps), ps)
  {
    if ps != [] {
      NewProductsInOrder(rows, ps[1..]);
      var r := NewProducts(rows, ps);
      if HasAsin(ps[0]) && ps[0].asin.value !in AsinsOfRows(rows) {
        assert r == [ps[0]] + NewProducts(rows, ps[1..]);
        assert r[0] == ps[0] && r[1..] == NewProducts(rows, ps[1..]);
      } else {
        assert r == NewProducts(rows, ps[1..]);
      }
    }
  }

  /** `filterNewProducts` keeps every product that has an ASIN not in the table. */
  lemma {:induction false} NewProductsComplete(rows: seq<Row>, ps: seq<Product>)
    ensures forall p :: p in ps && HasAsin(p) && p.asin.value !in AsinsOfRows(rows) ==> p in NewProducts(rows, ps)
  {
    if ps != [] {
      NewProductsComplete(rows, ps[1..]);
    }
  }

  /** A batch whose ASINs all have rows has nothing new. */
  lemma {:induction false} NewProductsAllStored(rows: seq<Row>, ps: seq<Product>)
    requires forall p :: p in ps && HasAsin(p) ==> p.asin.value in AsinsOfRows(rows)
    ensures NewProducts(rows, ps) == []
  {
    if ps != [] {
      assert ps[0] in ps;
      NewProductsAllStored(rows, ps[1..]);
    }
  }

  /** The ASINs of the products of a batch. */
  function BatchAsins(ps: seq<Product>): set<string> {
    set p | p in ps && HasAsin(p) :: p.asin.value
  }

  /** The eviction after the inserts deleted no row that carries an ASIN of the batch. */
  predicate BatchRowsKept(rows: seq<Row>, nextId: nat, ps: seq<Product>, now: int) {
    var r := InsertOrIgnore(rows, nextId, ps, now);
    forall j :: 0 <= j < |r| - |Evict(r)| ==> r[j].asin !in BatchAsins(ps)
  }

  /** Right after a batch is marked as sent, filtering the same batch finds nothing new, provided
      the eviction deleted none of the batch's rows. */
  lemma MarkThenFilterFindsNothing(rows: seq<Row>, nextId: nat, ps: seq<Product>, now: int)
    requires BatchRowsKept(rows, nextId, ps, now)
    ensures NewProducts(Evict(InsertOrIgnore(rows, nextId, ps, now)), ps) == []
  {
    var r := InsertOrIgnore(rows, nextId, ps, now);
    var e := Evict(r);
    InsertOrIgnoreCovers(rows, nextId, ps, now);
    forall p | p in ps && HasAsin(p)
      ensures p.asin.value in AsinsOfRows(e)
    {
      var row :| row in r && row.asin == p.asin.value;
      var k :| 0 <= k < |r| && r[k] == row;
      assert p.asin.value in BatchAsins(ps);
      assert r[k] == e[k - (|r| - |e|)];
    }
    NewProductsAllStored(e, ps);
  }

  /** One call of `markAsSent` adds at most one row per product. */
  lemma {:induction false} InsertOrIgnoreGrowth(rows: seq<Row>, nextId: nat, ps: seq<Product>, now: int)
    ensures |InsertOrIgnore(rows, nextId, ps, now)| <= |rows| + |ps|
    decreases |ps|
  {
    if ps != [] {
      if HasAsin(ps[0]) && ps[0].asin.value !in AsinsOfRows(rows) {
        InsertOrIgnoreGrowth(rows + [RowFor(nextId, ps[0], now)], nextId + 1, ps[1..], now);
      } else {
        InsertOrIgnoreGrowth(rows, nextId, ps[1..], now);
      }
    }
  }

  /** Eviction of a table that grew by at most `MAX_HISTORY` rows past its first `n` keeps every
      row after those `n`. */
  lemma EvictSparesTail(r: seq<Row>, n: nat)
    requires n <= |r| && |r| - n <= MaxHistory
    ensures |r| - |Evict(r)| <= n
    ensures forall k :: n <= k < |r| ==> r[k] in Evict(r)
  {
    var e := Evict(r);
    forall k | n <= k < |r|
      ensures r[k] in e
    {
      assert r[k] == e[k - (|r| - |e|)];
    }
  }

  /** A batch of at most `MAX_HISTORY` products keeps every row it inserts: the eviction deletes
      only rows stored before, so each ASIN of the batch that was not stored is stored after. */
  lemma NewRowsSurviveEviction(rows: seq<Row>, nextId: nat, ps: seq<Product>, now: int)
    requires |ps| <= MaxHistory
    ensures var r := InsertOrIgnore(rows, nextId, ps, now);
      |r| - |Evict(r)| <= |rows|
    ensures forall p :: p in ps && HasAsin(p) && p.asin.value !in AsinsOfRows(rows) ==>
      p.asin.value in AsinsOfRows(Evict(InsertOrIgnore(rows, nextId, ps, now)))
  {
    var r := InsertOrIgnore(rows, nextId, ps, now);
    var e := Evict(r);
    InsertOrIgnoreGrowth(rows, nextId, ps, now);
    InsertOrIgnoreCovers(rows, nextId, ps, now);
    EvictSparesTail(r, |rows|);
    var tail := r[|rows|..];
    assert r == rows + tail;
    forall p | p in ps && HasAsin(p) && p.asin.value !in AsinsOfRows(rows)
      ensures p.asin.value in AsinsOfRows(e)
    {
      var row :| row in r && row.asin == p.asin.value;
      assert row !in rows;
      assert row in tail;
      var k :| 0 <= k < |tail| && tail[k] == row;
      assert r[|rows| + k] == row;
    }
  }

  /** Without the proviso the filter can let a product of the batch through: on a full table, a
      batch whose first ASIN is the oldest row's and whose second is new makes the eviction delete
      that oldest row, so filtering the batch again returns the first product. */
  lemma StoredAsinCanBeEvicted(rows: seq<Row>, nextId: nat, p: Product, q: Product, now: int)
    requires TableInvariant(rows, nextId) && |rows| == MaxHistory
    requires HasAsin(p) && p.asin.value == rows[0].asin
    requires HasAsin(q) && q.asin.value !in AsinsOfRows(rows)
    ensures !BatchRowsKept(rows, nextId, [p, q], now)
    ensures NewProducts(Evict(InsertOrIgnore(rows, nextId, [p, q], now)), [p, q]) == [p]
  {
    assert rows[0] in rows;
    var row := RowFor(nextId, q, now);
    assert [p, q][1..] == [q] && [q][1..] == [];
    assert InsertOrIgnore(rows, nextId, [q], now) == InsertOrIgnore(rows + [row], nextId + 1, [], now);
    var r := InsertOrIgnore(rows, nextId, [p, q], now);
    assert r == rows + [row];
    var e := Evict(r);
    assert e == rows[1..] + [row];
    assert p in [p, q];
    assert r[0].asin in BatchAsins([p, q]);
    forall x | x in e
      ensures x.asin != p.asin.value
    {
      var k :| 0 <= k < |e| && e[k] == x;
      if k < |e| - 1 {
        assert x == rows[k + 1];
      }
    }
    assert p.asin.value !in AsinsOfRows(e);
    assert row in e;
    assert NewProducts(e, [q]) == [] + NewProducts(e, []);
  }

  /** `getRecentProducts` returns the table's rows from the last one backwards. */
  lemma {:induction false} NewestFirstRows(rows: seq<Row>, k: nat)
    requires k <= |rows|
    ensures forall i :: 0 <= i < k ==> NewestFirst(rows, k)[i] == ToRecent(rows[|rows| - 1 - i])
    decreases k
  {
    if k > 0 {
      NewestFirstRows(rows[..|rows| - 1], k - 1);
    }
  }

  /** On a well-formed table the recent rows come newest first, and no row left out was sent later
      than one returned. */
  lemma NewestFirstOrdered(rows: seq<Row>, nextId: nat, k: nat)
    requires TableInvariant(rows, nextId) && k <= |rows|
    ensures var r := NewestFirst(rows, k);
      forall i, j :: 0 <= i < j < k ==> r[i].sentAt >= r[j].sentAt
    ensures var r := NewestFirst(rows, k);
      forall i, j :: 0 <= i < k && 0 <= j < |rows| - k ==> rows[j].sentAt <= r[i].sentAt
  {
    NewestFirstRows(rows, k);
  }
}
