/**
 * `SnippetJpaRepository`: the in-memory `snippets` table with the operations
 * the service inherits from `JpaRepository` (save, find, exists, delete), and
 * the derived queries, each a filter followed by a sort on `createdAt`,
 * newest first.
 */
module Repository {
  import opened Base
  import opened JavaStrings
  import opened Entity

  /** Newest first: `ORDER BY createdAt DESC`. */
  predicate SortedByCreatedAtDesc(s: seq<Row>) {
    forall i, j :: 0 <= i < j < |s| ==> s[i].createdAt >= s[j].createdAt
  }

  lemma PrependSorted(h: Row, t: seq<Row>)
    requires SortedByCreatedAtDesc(t)
    requires forall k :: 0 <= k < |t| ==> h.createdAt >= t[k].createdAt
    ensures SortedByCreatedAtDesc([h] + t)
  {
  }

  /** Places `x` in front of the first row that is strictly older. */
  function InsertByCreatedAtDesc(t: seq<Row>, x: Row): (r: seq<Row>)
    requires SortedByCreatedAtDesc(t)
    ensures SortedByCreatedAtDesc(r)
    ensures multiset(r) == multiset(t) + multiset{x}
  {
    if t == [] || x.createdAt >= t[0].createdAt then
      PrependSorted(x, t);
      [x] + t
    else
      var rest := InsertByCreatedAtDesc(t[1..], x);
      assert t == [t[0]] + t[1..];
      assert forall k :: 0 <= k < |rest| ==> t[0].createdAt >= rest[k].createdAt by {
        forall k | 0 <= k < |rest| ensures t[0].createdAt >= rest[k].createdAt {
          var y := rest[k];
          assert y in multiset(rest);
          if y != x {
            assert y in multiset(t[1..]);
            var j :| 0 <= j < |t[1..]| && t[1..][j] == y;
            assert t[j + 1] == y;
          }
        }
      }
      PrependSorted(t[0], rest);
      [t[0]] + rest
  }

  /** The order a `... OrderByCreatedAtDesc` query returns its rows in.
      Rows with equal timestamps may come in any order in SQL; the model
      fixes one, and every contract below holds for any such order. */
  function SortByCreatedAtDesc(s: seq<Row>): (r: seq<Row>)
    ensures SortedByCreatedAtDesc(r)
    ensures multiset(r) == multiset(s)
  {
    if s == [] then []
    else
      assert s == [s[0]] + s[1..];
      InsertByCreatedAtDesc(SortByCreatedAtDesc(s[1..]), s[0])
  }

  /** The `WHERE` clause: the rows satisfying `p`, each as often as it occurs. */
  function Select(rows: seq<Row>, p: Row -> bool): (r: seq<Row>)
    ensures forall x :: multiset(r)[x] == if p(x) then multiset(rows)[x] else 0
  {
    if rows == [] then []
    else
      assert rows == [rows[0]] + rows[1..];
      (if p(rows[0]) then [rows[0]] else []) + Select(rows[1..], p)
  }

  /** Two filters that agree on every row select the same rows. */
  lemma {:induction false} SelectAgrees(rows: seq<Row>, p: Row -> bool, q: Row -> bool)
    requires forall i :: 0 <= i < |rows| ==> p(rows[i]) == q(rows[i])
    ensures Select(rows, p) == Select(rows, q)
  {
    if rows != [] {
      SelectAgrees(rows[1..], p, q);
    }
  }

  /** A filter followed by a descending sort on `createdAt`. */
  function Query(rows: seq<Row>, p: Row -> bool): (r: seq<Row>)
    ensures SortedByCreatedAtDesc(r)
    ensures forall x :: multiset(r)[x] == if p(x) then multiset(rows)[x] else 0
  {
    SortByCreatedAtDesc(Select(rows, p))
  }

  // The derived query methods.

  function FindAllByOrderByCreatedAtDesc(rows: seq<Row>): (r: seq<Row>)
    ensures SortedByCreatedAtDesc(r)
    ensures multiset(r) == multiset(rows)
  {
    SortByCreatedAtDesc(rows)
  }

  function FindByLanguageOrderByCreatedAtDesc(rows: seq<Row>, language: Language): (r: seq<Row>)
    ensures SortedByCreatedAtDesc(r)
    ensures forall x :: multiset(r)[x] == if x.language == language then multiset(rows)[x] else 0
  {
    Query(rows, (x: Row) => x.language == language)
  }

  function FindByUserIdOrderByCreatedAtDesc(rows: seq<Row>, userId: UserId): (r: seq<Row>)
    ensures SortedByCreatedAtDesc(r)
    ensures forall x :: multiset(r)[x] ==
                        if x.user.Some? && x.user.value.id == userId then multiset(rows)[x] else 0
  {
    Query(rows, (x: Row) => x.user.Some? && x.user.value.id == userId)
  }

  function FindByUserIsNullOrderByCreatedAtDesc(rows: seq<Row>): (r: seq<Row>)
    ensures SortedByCreatedAtDesc(r)
    ensures forall x :: multiset(r)[x] == if x.user.None? then multiset(rows)[x] else 0
  {
    Query(rows, (x: Row) => x.user.None?)
  }

  function FindByIsSharedTrueOrderByCreatedAtDesc(rows: seq<Row>): (r: seq<Row>)
    ensures SortedByCreatedAtDesc(r)
    ensures forall x :: multiset(r)[x] == if x.isShared then multiset(rows)[x] else 0
  {
    Query(rows, (x: Row) => x.isShared)
  }

  function FindBySharedByUserIdOrderByCreatedAtDesc(rows: seq<Row>, sharedByUserId: UserId): (r: seq<Row>)
    ensures SortedByCreatedAtDesc(r)
    ensures forall x :: multiset(r)[x] ==
                        if x.sharedByUser.Some? && x.sharedByUser.value.id == sharedByUserId then multiset(rows)[x] else 0
  {
    Query(rows, (x: Row) => x.sharedByUser.Some? && x.sharedByUser.value.id == sharedByUserId)
  }

  /** What `searchSnippets` evidently means: the lower-cased title or code
      contains the lower-cased query. */
  predicate MatchesQuery(x: Row, query: string) {
    Contains(Lower(x.title), Lower(query)) || Contains(Lower(x.code), Lower(query))
  }

  function SearchSnippets(rows: seq<Row>, query: string): (r: seq<Row>)
    ensures SortedByCreatedAtDesc(r)
    ensures forall x :: multiset(r)[x] == if MatchesQuery(x, query) then multiset(rows)[x] else 0
  {
    Query(rows, (x: Row) => MatchesQuery(x, query))
  }

  /** What the JPQL of `searchSnippets` does: the query is pasted into a
      `LIKE` pattern unescaped, so `%` and `_` in it are wildcards. */
  predicate LikeQuery(x: Row, query: string) {
    var pattern := Lower("%" + query + "%");
    Like(Lower(x.title), pattern) || Like(Lower(x.code), pattern)
  }

  function SearchSnippetsAsWritten(rows: seq<Row>, query: string): (r: seq<Row>)
    ensures SortedByCreatedAtDesc(r)
    ensures forall x :: multiset(r)[x] == if LikeQuery(x, query) then multiset(rows)[x] else 0
  {
    Query(rows, (x: Row) => LikeQuery(x, query))
  }

  lemma {:induction false} LowerKeepsNoWildcards(q: string)
    requires NoWildcards(q)
    ensures NoWildcards(Lower(q))
  {
  }

  /** For a query without `%` or `_` the JPQL does what is intended. */
  lemma SearchAsWrittenAgreesWithoutWildcards(rows: seq<Row>, query: string)
    requires NoWildcards(query)
    ensures SearchSnippetsAsWritten(rows, query) == SearchSnippets(rows, query)
  {
    var lq := Lower(query);
    LowerConcat("%", query);
    LowerConcat("%" + query, "%");
    assert Lower("%" + query + "%") == "%" + lq + "%";
    LowerKeepsNoWildcards(query);
    forall x: Row ensures LikeQuery(x, query) == MatchesQuery(x, query) {
      LikeSurroundedIsContains(Lower(x.title), lq);
      LikeSurroundedIsContains(Lower(x.code), lq);
    }
    SelectAgrees(rows, (x: Row) => LikeQuery(x, query), (x: Row) => MatchesQuery(x, query));
  }

  /** The query `_` finds a snippet whose title and code contain no `_`. */
  lemma SearchAsWrittenTreatsUnderscoreAsWildcard()
    ensures var x := Row(0, "x", "y", JAVA, 0, None, false, None);
      && x in SearchSnippetsAsWritten([x], "_")
      && x !in SearchSnippets([x], "_")
  {
    var x := Row(0, "x", "y", JAVA, 0, None, false, None);
    assert "%" + "_" + "%" == "%_%";
    assert Lower("%_%") == "%_%";
    assert Lower("x") == "x";
    assert Like("x", "%_%") by {
      LikeAnything("");
      assert Like("x", "_%");
    }
    assert LikeQuery(x, "_");
    assert multiset([x])[x] == 1;
    assert Lower("_") == "_" && Lower("y") == "y";
    assert !Contains("x", "_") && !Contains("y", "_");
    assert !MatchesQuery(x, "_");
  }

  /** The rows of `m` whose keys lie below `n`, in key order. */
  function RowsBelow(m: map<SnippetId, Row>, n: nat): (r: seq<Row>)
    requires forall k :: k in m ==> m[k].id == k
    ensures forall x :: multiset(r)[x] == if x.id < n && x.id in m && m[x.id] == x then 1 else 0
  {
    if n == 0 then []
    else
      RowsBelow(m, n - 1) + (if n - 1 in m then [m[n - 1]] else [])
  }

  /** The `snippets` table, keyed by id. Keys come from a counter, so a key
      handed out on insert is never in use. */
  class SnippetTable {
    var rows: map<SnippetId, Row>
    var nextId: SnippetId

    ghost predicate Valid()
      reads this
    {
      forall k :: k in rows ==> k < nextId && rows[k].id == k && RowMeetsConstraints(rows[k])
    }

    constructor ()
      ensures Valid() && rows == map[]
    {
      rows, nextId := map[], 0;
    }

    /** `x` is the row stored under its own id. */
    predicate Stored(x: Row)
      reads this
    {
      x.id in rows && rows[x.id] == x
    }

    /** The whole table as a sequence, each stored row once. */
    function Rows(): (r: seq<Row>)
      reads this
      requires Valid()
      ensures forall x :: multiset(r)[x] == if Stored(x) then 1 else 0
    {
      RowsBelow(rows, nextId)
    }

    function FindById(id: SnippetId): (r: Option<Row>)
      reads this
      ensures r.Some? <==> id in rows
      ensures r.Some? ==> r.value == rows[id]
    {
      if id in rows then Some(rows[id]) else None
    }

    function ExistsById(id: SnippetId): (b: bool)
      reads this
      ensures b <==> FindById(id).Some?
    {
      id in rows
    }

    /** `findById` for a caller that goes on to change the entity: a fresh
        object holding the row's fields, or `null`. */
    method Load(id: SnippetId) returns (e: SnippetEntity?)
      ensures e == null <==> id !in rows
      ensures e != null ==> fresh(e) && e.State() == StateOf(rows[id])
    {
      if id !in rows {
        return null;
      }
      var row := rows[id];
      e := new SnippetEntity.Empty();
      e.SetId(Some(row.id));
      e.SetTitle(row.title);
      e.SetCode(row.code);
      e.SetLanguage(Some(row.language));
      e.SetCreatedAt(Some(row.createdAt));
      e.SetUser(row.user);
      e.SetIsShared(row.isShared);
      e.SetSharedByUser(row.sharedByUser);
    }

    /** `save`: an entity that breaks a column constraint is rejected and
        nothing changes. An entity whose id is stored overwrites that row,
        keeping its `createdAt` (the column is not updatable). Any other
        entity is inserted under a fresh id with `createdAt` set to `now`
        (`@CreationTimestamp`), and the entity receives both values. */
    method Save(e: SnippetEntity, now: int) returns (r: Result<Row>)
      requires Valid()
      modifies this, e
      ensures Valid()
      ensures r.Ok? <==> MeetsConstraints(old(e.State()))
      ensures r.Err? ==> rows == old(rows) && nextId == old(nextId) && e.State() == old(e.State())
      ensures r.Ok? && old(e.id).Some? && old(e.id).value in old(rows) ==>
        && r.value == RowOf(old(e.State()), old(e.id).value, old(rows)[old(e.id).value].createdAt)
        && rows == old(rows)[r.value.id := r.value]
        && nextId == old(nextId)
        && e.State() == old(e.State())
      ensures r.Ok? && !(old(e.id).Some? && old(e.id).value in old(rows)) ==>
        && r.value == RowOf(old(e.State()), old(nextId), now)
        && r.value.id !in old(rows)
        && rows == old(rows)[r.value.id := r.value]
        && nextId == old(nextId) + 1
        && e.State() == old(e.State()).(id := Some(r.value.id), createdAt := Some(now))
    {
      if !MeetsConstraints(e.State()) {
        return Err(ConstraintViolation);
      }
      var row;
      if e.id.Some? && e.id.value in rows {
        row := Merge(e);
      } else {
        row := Persist(e, now);
      }
      r := Ok(row);
    }

    /** Overwrites the stored row of a known entity, keeping its `createdAt`. */
    method Merge(e: SnippetEntity) returns (row: Row)
      requires Valid() && MeetsConstraints(e.State())
      requires e.id.Some? && e.id.value in rows
      modifies this
      ensures Valid() && nextId == old(nextId)
      ensures row == RowOf(e.State(), e.id.value, old(rows)[e.id.value].createdAt)
      ensures rows == old(rows)[row.id := row]
    {
      var id := e.id.value;
      row := RowOf(e.State(), id, rows[id].createdAt);
      StoredThenLoaded(e.State(), id, rows[id].createdAt);
      rows := rows[id := row];
      assert Valid() by {
        forall k | k in rows
          ensures k < nextId && rows[k].id == k && RowMeetsConstraints(rows[k])
        {
          if k != id {
            assert k in old(rows) && rows[k] == old(rows)[k];
          }
        }
      }
    }

    /** Inserts a new entity under a fresh id, stamped with `now`. */
    method Persist(e: SnippetEntity, now: int) returns (row: Row)
      requires Valid() && MeetsConstraints(e.State())
      modifies this, e
      ensures Valid() && nextId == old(nextId) + 1
      ensures row == RowOf(old(e.State()), old(nextId), now) && row.id !in old(rows)
      ensures rows == old(rows)[row.id := row]
      ensures e.State() == old(e.State()).(id := Some(row.id), createdAt := Some(now))
    {
      var id := nextId;
      row := RowOf(e.State(), id, now);
      StoredThenLoaded(e.State(), id, now);
      rows := rows[id := row];
      nextId := nextId + 1;
      assert Valid() by {
        forall k | k in rows
          ensures k < nextId && rows[k].id == k && RowMeetsConstraints(rows[k])
        {
          if k != id {
            assert k in old(rows) && rows[k] == old(rows)[k];
          }
        }
      }
      e.SetId(Some(id));
      e.SetCreatedAt(Some(now));
    }

    /** `deleteById`. */
    method DeleteById(id: SnippetId)
      requires Valid()
      modifies this
      ensures Valid()
      ensures rows == old(rows) - {id} && nextId == old(nextId)
    {
      rows := rows - {id};
    }
  }
}
