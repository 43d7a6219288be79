/**
 * The per-term tables and their change-detecting upsert.
 *
 * A table holds rows of nine columns: a surrogate id given by an
 * auto-increment counter, and the eight text columns of an article. The
 * link is the key the upsert looks rows up by. The pure part (TableState,
 * Upserted, Ensured) is the specification; the classes Table and Database
 * are the store the pipeline changes in place.
 */
module Store {
  import opened Wrappers

  /** The eight text columns of a stored article, in schema order. */
  datatype Article = Article(
    searchTerm: string,   // nome_pesquisa
    kind: string,         // tipo
    link: string,         // link
    title: string,        // titulo
    created: string,      // data_criacao
    published: string,    // data_publicacao
    modified: string,     // data_modificacao
    text: string)         // texto_noticia

  /** One row: the auto-increment id and the article's columns. */
  datatype Row = Row(id: nat, article: Article)

  /** A table's contents: its rows in insertion order and the id the next insert receives. */
  datatype TableState = TableState(rows: seq<Row>, nextId: nat)

  /** What an upsert did. `StoreError` is a failed statement: it is reported and the run goes on. */
  datatype UpsertOutcome = Inserted | Updated | Unchanged | StoreError

  /** What ensuring a table did. `Fatal` stops the whole run (the process exits with status 1). */
  datatype EnsureOutcome = Existed | Created | Fatal

  /** All the tables, by name. */
  type DbState = map<string, TableState>

  /** A freshly created table: no rows, and auto-increment ids starting at 1. */
  const EmptyTable := TableState([], 1)

  /**
   * The invariant the upsert keeps: ids start at 1, increase along the
   * rows and lie below the counter, and no two rows share a link.
   */
  ghost predicate WellFormed(t: TableState) {
    && t.nextId >= 1
    && (forall i :: 0 <= i < |t.rows| ==> 1 <= t.rows[i].id < t.nextId)
    && (forall i, j :: 0 <= i < j < |t.rows| ==> t.rows[i].id < t.rows[j].id)
    && (forall i, j :: 0 <= i < j < |t.rows| ==> t.rows[i].article.link != t.rows[j].article.link)
  }

  ghost predicate HasLink(rows: seq<Row>, link: string) {
    exists i :: 0 <= i < |rows| && rows[i].article.link == link
  }

  /** `SELECT data_modificacao ... WHERE link = %s` followed by `fetchone()`: the first row with that link. */
  function FindByLink(rows: seq<Row>, link: string): (r: Option<Row>)
    ensures r.None? <==> !HasLink(rows, link)
    ensures r.Some? ==> exists i :: 0 <= i < |rows| && rows[i] == r.value && r.value.article.link == link
                                   && forall k :: 0 <= k < i ==> rows[k].article.link != link
  {
    if rows == [] then None
    else if rows[0].article.link == link then Some(rows[0])
    else
      var r := FindByLink(rows[1..], link);
      assert HasLink(rows[1..], link) ==> HasLink(rows, link) by {
        if HasLink(rows[1..], link) {
          var i :| 0 <= i < |rows[1..]| && rows[1..][i].article.link == link;
          assert rows[i + 1].article.link == link;
        }
      }
      assert HasLink(rows, link) ==> HasLink(rows[1..], link) by {
        if HasLink(rows, link) {
          var i :| 0 <= i < |rows| && rows[i].article.link == link;
          assert rows[1..][i - 1].article.link == link;
        }
      }
      if r.Some? then
        assert exists i :: 0 <= i < |rows| && rows[i] == r.value && r.value.article.link == link
                          && forall k :: 0 <= k < i ==> rows[k].article.link != link by {
          var i :| 0 <= i < |rows[1..]| && rows[1..][i] == r.value && r.value.article.link == link
                   && forall k :: 0 <= k < i ==> rows[1..][k].article.link != link;
          assert forall k :: 0 <= k < i + 1 ==> rows[k].article.link != link by {
            forall k | 0 <= k < i + 1 ensures rows[k].article.link != link {
              if k > 0 { assert rows[k] == rows[1..][k - 1]; }
            }
          }
        }
        r
      else r
  }

  /** `UPDATE ... SET <every column but id and link> ... WHERE link = %s`. */
  function UpdateByLink(rows: seq<Row>, a: Article): (r: seq<Row>)
    ensures |r| == |rows|
    ensures forall i :: 0 <= i < |rows| ==>
      r[i] == if rows[i].article.link == a.link then Row(rows[i].id, a) else rows[i]
  {
    if rows == [] then []
    else [if rows[0].article.link == a.link then Row(rows[0].id, a) else rows[0]] + UpdateByLink(rows[1..], a)
  }

  /**
   * `inserir_dados_noticias` on one table: insert when the link is new,
   * update every mutable column when the stored modification date differs
   * from the incoming one, and do nothing when they are equal.
   */
  function Upserted(t: TableState, a: Article): (TableState, UpsertOutcome) {
    match FindByLink(t.rows, a.link)
    case None => (TableState(t.rows + [Row(t.nextId, a)], t.nextId + 1), Inserted)
    case Some(stored) =>
      if stored.article.modified != a.modified then (TableState(UpdateByLink(t.rows, a), t.nextId), Updated)
      else (t, Unchanged)
  }

  /** Which of the three branches runs, in both directions. */
  lemma UpsertOutcomes(t: TableState, a: Article)
    ensures Upserted(t, a).1 == Inserted <==> !HasLink(t.rows, a.link)
    ensures Upserted(t, a).1 == Updated <==>
      HasLink(t.rows, a.link) && FindByLink(t.rows, a.link).value.article.modified != a.modified
    ensures Upserted(t, a).1 == Unchanged <==>
      HasLink(t.rows, a.link) && FindByLink(t.rows, a.link).value.article.modified == a.modified
    ensures Upserted(t, a).1 != StoreError
  {
  }

  /**
   * A new link gets exactly one new row at the end, holding all eight
   * columns and an id no other row has; the rows already there stay as they were.
   */
  lemma UpsertNewLink(t: TableState, a: Article)
    requires WellFormed(t)
    requires !HasLink(t.rows, a.link)
    ensures var (t', o) := Upserted(t, a);
      && o == Inserted
      && |t'.rows| == |t.rows| + 1
      && t'.rows[..|t.rows|] == t.rows
      && t'.rows[|t.rows|] == Row(t.nextId, a)
      && (forall i :: 0 <= i < |t.rows| ==> t.rows[i].id != t.nextId)
      && t'.nextId == t.nextId + 1
  {
  }

  /**
   * A known link whose stored modification date differs: every row with
   * that link takes all the incoming columns; the number of rows, every
   * id, the counter and every other row are unchanged.
   */
  lemma UpsertChangedLink(t: TableState, a: Article)
    requires HasLink(t.rows, a.link)
    requires FindByLink(t.rows, a.link).value.article.modified != a.modified
    ensures var (t', o) := Upserted(t, a);
      && o == Updated
      && |t'.rows| == |t.rows|
      && t'.nextId == t.nextId
      && (forall i :: 0 <= i < |t.rows| ==> t'.rows[i].id == t.rows[i].id)
      && (forall i :: 0 <= i < |t.rows| && t.rows[i].article.link == a.link ==> t'.rows[i].article == a)
      && (forall i :: 0 <= i < |t.rows| && t.rows[i].article.link != a.link ==> t'.rows[i] == t.rows[i])
  {
  }

  /** A known link with the same modification date: nothing is written. */
  lemma UpsertSameDate(t: TableState, a: Article)
    requires HasLink(t.rows, a.link)
    requires FindByLink(t.rows, a.link).value.article.modified == a.modified
    ensures Upserted(t, a) == (t, Unchanged)
  {
  }

  lemma {:induction false} FindAfterAppend(rows: seq<Row>, r: Row)
    requires !HasLink(rows, r.article.link)
    ensures FindByLink(rows + [r], r.article.link) == Some(r)
  {
    if rows != [] {
      assert (rows + [r])[1..] == rows[1..] + [r];
      assert rows[0].article.link != r.article.link;
      FindAfterAppend(rows[1..], r);
    }
  }

  /** After an upsert, the first row with the link holds the incoming modification date. */
  lemma UpsertSettles(t: TableState, a: Article)
    ensures var t' := Upserted(t, a).0;
      HasLink(t'.rows, a.link) && FindByLink(t'.rows, a.link).value.article.modified == a.modified
  {
    match FindByLink(t.rows, a.link)
    case None =>
      FindAfterAppend(t.rows, Row(t.nextId, a));
      assert (t.rows + [Row(t.nextId, a)])[|t.rows|].article.link == a.link;
    case Some(stored) =>
      if stored.article.modified != a.modified {
        var rows' := UpdateByLink(t.rows, a);
        var i :| 0 <= i < |t.rows| && t.rows[i] == stored && stored.article.link == a.link;
        assert rows'[i].article.link == a.link;
      }
  }

  /** Upserting the same article twice leaves the table as upserting it once; the second call writes nothing. */
  lemma UpsertIdempotent(t: TableState, a: Article)
    ensures var t' := Upserted(t, a).0;
      Upserted(t', a) == (t', Unchanged)
  {
    UpsertSettles(t, a);
  }

  /** Appending a row for a new link under the counter's id keeps the table well formed. */
  lemma InsertKeepsWellFormed(t: TableState, a: Article)
    requires WellFormed(t)
    requires !HasLink(t.rows, a.link)
    ensures WellFormed(TableState(t.rows + [Row(t.nextId, a)], t.nextId + 1))
  {
    var rows' := t.rows + [Row(t.nextId, a)];
    forall i | 0 <= i < |t.rows| ensures rows'[i] == t.rows[i] && t.rows[i].article.link != a.link {
    }
  }

  /** Rewriting the rows of a link in place keeps ids, links and counter, and so the invariant. */
  lemma UpdateKeepsWellFormed(t: TableState, a: Article)
    requires WellFormed(t)
    ensures WellFormed(TableState(UpdateByLink(t.rows, a), t.nextId))
  {
    var rows' := UpdateByLink(t.rows, a);
    assert forall i :: 0 <= i < |t.rows| ==> rows'[i].id == t.rows[i].id && rows'[i].article.link == t.rows[i].article.link;
  }

  /** The upsert keeps the table well formed: in particular at most one row per link. */
  lemma UpsertKeepsWellFormed(t: TableState, a: Article)
    requires WellFormed(t)
    ensures WellFormed(Upserted(t, a).0)
  {
    match FindByLink(t.rows, a.link)
    case None => InsertKeepsWellFormed(t, a);
    case Some(stored) => UpdateKeepsWellFormed(t, a);
  }

  /** An upsert into a table leaves the first row of every other link as it was. */
  lemma {:induction false} UpsertKeepsOtherLinks(t: TableState, a: Article, link: string)
    requires link != a.link
    ensures FindByLink(Upserted(t, a).0.rows, link) == FindByLink(t.rows, link)
  {
    var rows' := Upserted(t, a).0.rows;
    match FindByLink(t.rows, a.link)
    case None =>
      FindPrefix(t.rows, [Row(t.nextId, a)], link);
    case Some(stored) =>
      if stored.article.modified != a.modified {
        UpdateKeepsOtherLinks(t.rows, a, link);
      }
  }

  lemma {:induction false} FindPrefix(rows: seq<Row>, extra: seq<Row>, link: string)
    requires forall i :: 0 <= i < |extra| ==> extra[i].article.link != link
    ensures FindByLink(rows + extra, link) == FindByLink(rows, link)
  {
    if rows == [] {
      assert rows + extra == extra;
      assert !HasLink(extra, link);
    } else {
      assert (rows + extra)[1..] == rows[1..] + extra;
      FindPrefix(rows[1..], extra, link);
    }
  }

  lemma {:induction false} UpdateKeepsOtherLinks(rows: seq<Row>, a: Article, link: string)
    requires link != a.link
    ensures FindByLink(UpdateByLink(rows, a), link) == FindByLink(rows, link)
  {
    if rows != [] {
      var r := UpdateByLink(rows, a);
      assert r[1..] == UpdateByLink(rows[1..], a);
      UpdateKeepsOtherLinks(rows[1..], a, link);
    }
  }

  /** `ensure_table`: the state after and which branch ran. The store being unreachable is fatal. */
  function Ensured(S: DbState, name: string, online: bool): (DbState, EnsureOutcome) {
    if !online then (S, Fatal)
    else if name in S then (S, Existed)
    else (S[name := EmptyTable], Created)
  }

  /** The table is created only when absent: ensuring twice is ensuring once, and the second call finds it. */
  lemma EnsureIdempotent(S: DbState, name: string)
    ensures var S' := Ensured(S, name, true).0;
      name in S' && Ensured(S', name, true) == (S', Existed)
    ensures forall n :: n in S ==> n in Ensured(S, name, true).0 && Ensured(S, name, true).0[n] == S[n]
  {
  }

  /** The upsert on the named table; a missing table makes the statement fail and nothing changes. */
  function UpsertedDb(S: DbState, name: string, a: Article): (r: (DbState, UpsertOutcome))
    ensures r.0.Keys == S.Keys
    ensures forall n :: n in S && n != name ==> r.0[n] == S[n]
  {
    if name !in S then (S, StoreError)
    else
      var (t, o) := Upserted(S[name], a);
      (S[name := t], o)
  }

  /** Once the table has been ensured, upserting into it never fails. */
  lemma EnsuredTableAcceptsUpserts(S: DbState, name: string, a: Article)
    ensures UpsertedDb(Ensured(S, name, true).0, name, a).1 != StoreError
  {
  }

  /** The table after upserting the articles one after another. */
  function UpsertAll(t: TableState, arts: seq<Article>): TableState {
    if arts == [] then t else Upserted(UpsertAll(t, arts[..|arts| - 1]), arts[|arts| - 1]).0
  }

  /** The database after upserting the articles one after another into the named table. */
  function UpsertAllDb(S: DbState, name: string, arts: seq<Article>): DbState {
    if arts == [] then S else UpsertedDb(UpsertAllDb(S, name, arts[..|arts| - 1]), name, arts[|arts| - 1]).0
  }

  /** The table holds the article's link, and its first row with that link has the article's modification date. */
  ghost predicate Settles(t: TableState, a: Article) {
    HasLink(t.rows, a.link) && FindByLink(t.rows, a.link).value.article.modified == a.modified
  }

  /** Articles that share a link are the same article (they were scraped from the same page). */
  ghost predicate Consistent(arts: seq<Article>) {
    forall i, j :: 0 <= i < |arts| && 0 <= j < |arts| && arts[i].link == arts[j].link ==> arts[i] == arts[j]
  }

  lemma UpsertAllDbStep(S: DbState, name: string, arts: seq<Article>, a: Article)
    ensures UpsertAllDb(S, name, arts + [a]) == UpsertedDb(UpsertAllDb(S, name, arts), name, a).0
  {
    assert (arts + [a])[..|arts|] == arts;
  }

  lemma {:induction false} UpsertAllDbAppend(S: DbState, name: string, a: seq<Article>, b: seq<Article>)
    ensures UpsertAllDb(S, name, a + b) == UpsertAllDb(UpsertAllDb(S, name, a), name, b)
  {
    if b == [] {
      assert a + b == a;
    } else {
      assert (a + b)[..|a + b| - 1] == a + b[..|b| - 1];
      UpsertAllDbAppend(S, name, a, b[..|b| - 1]);
    }
  }

  lemma {:induction false} UpsertAllAppend(t: TableState, a: seq<Article>, b: seq<Article>)
    ensures UpsertAll(t, a + b) == UpsertAll(UpsertAll(t, a), b)
  {
    if b == [] {
      assert a + b == a;
    } else {
      assert (a + b)[..|a + b| - 1] == a + b[..|b| - 1];
      UpsertAllAppend(t, a, b[..|b| - 1]);
    }
  }

  /** A run of upserts into a present table is the run on that table; into a missing table it changes nothing. */
  lemma {:induction false} UpsertAllDbTable(S: DbState, name: string, arts: seq<Article>)
    ensures name in S ==> UpsertAllDb(S, name, arts) == S[name := UpsertAll(S[name], arts)]
    ensures name !in S ==> UpsertAllDb(S, name, arts) == S
  {
    if arts != [] {
      UpsertAllDbTable(S, name, arts[..|arts| - 1]);
    } else if name in S {
      assert S[name := S[name]] == S;
    }
  }

  /** A sequence of upserts keeps the table well formed. */
  lemma {:induction false} UpsertAllKeepsWellFormed(t: TableState, arts: seq<Article>)
    requires WellFormed(t)
    ensures WellFormed(UpsertAll(t, arts))
  {
    if arts != [] {
      UpsertAllKeepsWellFormed(t, arts[..|arts| - 1]);
      UpsertKeepsWellFormed(UpsertAll(t, arts[..|arts| - 1]), arts[|arts| - 1]);
    }
  }

  /** An upsert keeps every article settled that it does not contradict, and settles its own. */
  lemma SettlesKept(t: TableState, last: Article, a: Article)
    requires a.link == last.link ==> a == last
    requires a.link != last.link ==> Settles(t, a)
    ensures Settles(Upserted(t, last).0, a)
  {
    if a.link != last.link {
      UpsertKeepsOtherLinks(t, last, a.link);
    } else {
      UpsertSettles(t, last);
    }
  }

  lemma ConsistentPrefix(arts: seq<Article>, n: nat)
    requires n <= |arts| && Consistent(arts)
    ensures Consistent(arts[..n])
  {
    var init := arts[..n];
    forall i, j | 0 <= i < |init| && 0 <= j < |init| && init[i].link == init[j].link
      ensures init[i] == init[j]
    {
      assert arts[i] == init[i] && arts[j] == init[j];
    }
  }

  /** After a sequence of upserts the table holds every one of the articles' modification dates. */
  lemma {:induction false} UpsertAllSettles(t: TableState, arts: seq<Article>)
    requires Consistent(arts)
    ensures forall i :: 0 <= i < |arts| ==> Settles(UpsertAll(t, arts), arts[i])
  {
    if arts != [] {
      var init := arts[..|arts| - 1];
      var last := arts[|arts| - 1];
      ConsistentPrefix(arts, |arts| - 1);
      UpsertAllSettles(t, init);
      var t1 := UpsertAll(t, init);
      assert UpsertAll(t, arts) == Upserted(t1, last).0;
      forall i | 0 <= i < |arts| ensures Settles(Upserted(t1, last).0, arts[i]) {
        if i < |init| {
          assert arts[i] == init[i];
        }
        SettlesKept(t1, last, arts[i]);
      }
    }
  }

  /** Upserts of articles the table already settles write nothing. */
  lemma {:induction false} SettledUpsertsUnchanged(t: TableState, arts: seq<Article>)
    requires forall i :: 0 <= i < |arts| ==> Settles(t, arts[i])
    ensures UpsertAll(t, arts) == t
    ensures forall i :: 0 <= i < |arts| ==> Upserted(t, arts[i]) == (t, Unchanged)
  {
    forall i | 0 <= i < |arts| ensures Upserted(t, arts[i]) == (t, Unchanged) {
      UpsertSameDate(t, arts[i]);
    }
    if arts != [] {
      SettledUpsertsUnchanged(t, arts[..|arts| - 1]);
    }
  }

  /**
   * Re-running the same upserts is a no-op: the table is as after one run
   * and every upsert of the second run reports `Unchanged`.
   */
  lemma UpsertAllIdempotent(t: TableState, arts: seq<Article>)
    requires Consistent(arts)
    ensures UpsertAll(UpsertAll(t, arts), arts) == UpsertAll(t, arts)
    ensures forall i :: 0 <= i < |arts| ==> Upserted(UpsertAll(t, arts), arts[i]).1 == Unchanged
  {
    UpsertAllSettles(t, arts);
    SettledUpsertsUnchanged(UpsertAll(t, arts), arts);
  }

  /** The same on the database: re-running the upserts on the named table changes nothing more. */
  lemma UpsertAllDbIdempotent(S: DbState, name: string, arts: seq<Article>)
    requires Consistent(arts)
    ensures UpsertAllDb(UpsertAllDb(S, name, arts), name, arts) == UpsertAllDb(S, name, arts)
    ensures name in S ==>
      && name in UpsertAllDb(S, name, arts)
      && forall i :: 0 <= i < |arts| ==> Upserted(UpsertAllDb(S, name, arts)[name], arts[i]).1 == Unchanged
  {
    UpsertAllDbTable(S, name, arts);
    if name in S {
      var t1 := UpsertAll(S[name], arts);
      UpsertAllIdempotent(S[name], arts);
      MapTableTwice(S, name, arts, t1);
    }
  }

  lemma MapTableTwice(S: DbState, name: string, arts: seq<Article>, t1: TableState)
    requires name in S && UpsertAll(t1, arts) == t1
    ensures UpsertAllDb(S[name := t1], name, arts) == S[name := t1]
  {
    UpsertAllDbTable(S[name := t1], name, arts);
  }

  // ---------- The store as objects ----------

  /** One table, changed in place by its upsert. */
  class Table {
    var rows: seq<Row>
    var nextId: nat

    function State(): TableState
      reads this
    {
      TableState(rows, nextId)
    }

    /** `CREATE TABLE`: no rows, ids starting at 1. */
    constructor ()
      ensures State() == EmptyTable
    {
      rows := [];
      nextId := 1;
    }

    /** Looks the link up, then inserts, updates every row with that link, or leaves the table alone. */
    method Upsert(a: Article) returns (o: UpsertOutcome)
      modifies this
      ensures (State(), o) == Upserted(old(State()), a)
    {
      var stored := FindByLink(rows, a.link);
      if stored.None? {
        rows := rows + [Row(nextId, a)];
        nextId := nextId + 1;
        o := Inserted;
      } else if stored.value.article.modified != a.modified {
        rows := UpdateByLink(rows, a);
        o := Updated;
      } else {
        o := Unchanged;
      }
    }
  }

  /** The database: its tables by name, each a distinct object. */
  class Database {
    var tables: map<string, Table>

    ghost predicate Valid()
      reads this, tables.Values
    {
      && (forall n, m :: n in tables && m in tables && n != m ==> tables[n] != tables[m])
      && (forall n :: n in tables ==> WellFormed(tables[n].State()))
    }

    /** The contents of every table. */
    ghost function Snapshot(): DbState
      reads this, tables.Values
    {
      map n | n in tables :: tables[n].State()
    }

    constructor ()
      ensures Valid() && Snapshot() == map[]
    {
      tables := map[];
    }

    /**
     * `conexao_base_dados`: creates the table when no table of that name
     * exists, and reports which branch ran. Existing tables keep their
     * objects; a created one is fresh.
     */
    method EnsureTable(name: string, online: bool) returns (o: EnsureOutcome)
      requires Valid()
      modifies this
      ensures Valid()
      ensures (Snapshot(), o) == Ensured(old(Snapshot()), name, online)
      ensures forall n :: n in old(tables) ==> n in tables && tables[n] == old(tables[n])
      ensures forall n :: n in tables && n !in old(tables) ==> fresh(tables[n])
    {
      if !online {
        o := Fatal;
        return;
      }
      if name in tables {
        o := Existed;
      } else {
        var t := new Table();
        tables := tables[name := t];
        o := Created;
        assert Snapshot() == old(Snapshot())[name := EmptyTable];
      }
    }

    /** `inserir_dados_noticias`: the upsert on the named table; every other table is untouched. */
    method Upsert(name: string, a: Article) returns (o: UpsertOutcome)
      requires Valid()
      modifies tables.Values
      ensures Valid() && tables == old(tables)
      ensures (Snapshot(), o) == UpsertedDb(old(Snapshot()), name, a)
    {
      if name !in tables {
        o := StoreError;
        return;
      }
      var t := tables[name];
      ghost var before := t.State();
      UpsertKeepsWellFormed(before, a);
      o := t.Upsert(a);
      assert forall n :: n in tables && n != name ==> tables[n] != t;
      assert Snapshot() == old(Snapshot())[name := t.State()];
    }
  }
}
