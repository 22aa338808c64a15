/**
 * The mapping store (database.py): the `urls` table as an in-memory
 * sequence of rows in insertion order, with the AUTOINCREMENT high-water
 * mark and a logical clock in place of CURRENT_TIMESTAMP.
 */
module Store {
  import opened Wrappers

  /** One row of the `urls` table. */
  datatype UrlRow = UrlRow(id: nat, shortCode: string, originalUrl: string, createdAt: nat, clicks: nat)

  /** The UNIQUE constraint on `short_code`. */
  ghost predicate UniqueCodes(rows: seq<UrlRow>) {
    forall i, j :: 0 <= i < j < |rows| ==> rows[i].shortCode != rows[j].shortCode
  }

  /** AUTOINCREMENT ids grow with insertion order. */
  ghost predicate IdsIncreasing(rows: seq<UrlRow>) {
    forall i, j :: 0 <= i < j < |rows| ==> rows[i].id < rows[j].id
  }

  /** Rows inserted later were stamped no earlier. */
  ghost predicate StampsOrdered(rows: seq<UrlRow>) {
    forall i, j :: 0 <= i < j < |rows| ==> rows[i].createdAt <= rows[j].createdAt
  }

  /**
   * How the table may change over time: rows are only ever appended, a row
   * keeps its id, code, URL and timestamp, and its click count never falls.
   */
  ghost predicate Evolves(before: seq<UrlRow>, after: seq<UrlRow>) {
    && |before| <= |after|
    && forall i :: 0 <= i < |before| ==>
         && after[i].id == before[i].id
         && after[i].shortCode == before[i].shortCode
         && after[i].originalUrl == before[i].originalUrl
         && after[i].createdAt == before[i].createdAt
         && after[i].clicks >= before[i].clicks
  }

  /** Some row of `rows` holds `code`. */
  ghost predicate Contains(rows: seq<UrlRow>, code: string) {
    exists i :: 0 <= i < |rows| && rows[i].shortCode == code
  }

  /** The position of the row holding `code`, as `WHERE short_code = ?` finds it. */
  function Find(rows: seq<UrlRow>, code: string): (r: Option<nat>)
    ensures r.None? <==> forall i :: 0 <= i < |rows| ==> rows[i].shortCode != code
    ensures r.Some? ==> r.value < |rows| && rows[r.value].shortCode == code
  {
    if rows == [] then None
    else if rows[0].shortCode == code then Some(0)
    else match Find(rows[1..], code)
      case None => None
      case Some(i) => Some(i + 1)
  }

  /** With unique codes, the row Find returns is the only row holding the code. */
  lemma FindUnique(rows: seq<UrlRow>, code: string, k: nat)
    requires UniqueCodes(rows)
    requires k < |rows| && rows[k].shortCode == code
    ensures Find(rows, code) == Some(k)
  {
  }

  /** `rows` after one click on the row at position `k`. */
  function Clicked(rows: seq<UrlRow>, k: nat): (after: seq<UrlRow>)
    requires k < |rows|
    ensures |after| == |rows|
    ensures after[k].clicks == rows[k].clicks + 1
    ensures forall i :: 0 <= i < |rows| && i != k ==> after[i] == rows[i]
    ensures Evolves(rows, after)
  {
    rows[k := rows[k].(clicks := rows[k].clicks + 1)]
  }

  /** A click on the row just appended counts on that row alone. */
  lemma ClickedLast(rows: seq<UrlRow>, row: UrlRow)
    ensures Clicked(rows + [row], |rows|) == rows + [row.(clicks := row.clicks + 1)]
  {
  }

  class Database {
    /** The rows of the table, oldest first. */
    var rows: seq<UrlRow>
    /** The id the next insert receives: one more than the largest id ever issued. */
    var nextId: nat
    /** The logical time the next insert is stamped with. */
    var clock: nat

    ghost predicate Valid()
      reads this
    {
      && UniqueCodes(rows)
      && IdsIncreasing(rows)
      && StampsOrdered(rows)
      && 1 <= nextId
      && (forall i :: 0 <= i < |rows| ==> 1 <= rows[i].id < nextId && rows[i].createdAt <= clock)
    }

    /** `Database()` with `_init_db`: an empty `urls` table. */
    constructor ()
      ensures Valid()
      ensures rows == [] && nextId == 1 && clock == 0
    {
      rows := [];
      nextId := 1;
      clock := 0;
    }

    /** Time passes; CURRENT_TIMESTAMP never runs backwards. */
    method AdvanceClock(elapsed: nat)
      requires Valid()
      modifies this`clock
      ensures Valid()
      ensures clock == old(clock) + elapsed
    {
      clock := clock + elapsed;
    }

    /**
     * `create_url`: insert a row, or report that the code is taken. The
     * UNIQUE constraint decides; a refused insert is rolled back whole.
     */
    method CreateUrl(shortCode: string, originalUrl: string) returns (ok: bool)
      requires Valid()
      modifies this`rows, this`nextId
      ensures Valid()
      ensures ok <==> !Contains(old(rows), shortCode)
      ensures !ok ==> rows == old(rows) && nextId == old(nextId)
      ensures ok ==> rows == old(rows) + [UrlRow(old(nextId), shortCode, originalUrl, clock, 0)]
      ensures ok ==> forall i :: 0 <= i < |old(rows)| ==> old(rows)[i].id < old(nextId)
      ensures ok ==> nextId == old(nextId) + 1
      ensures ok ==> Contains(rows, shortCode)
      ensures Evolves(old(rows), rows)
    {
      var found := Find(rows, shortCode);
      if found.Some? {
        return false;
      }
      rows := rows + [UrlRow(nextId, shortCode, originalUrl, clock, 0)];
      nextId := nextId + 1;
      ok := true;
      assert rows[|rows| - 1].shortCode == shortCode;
    }

    /**
     * `get_url`: the row as it was read, before its click counter went up by
     * one in the same transaction; None and no change when the code is absent.
     */
    method GetUrl(shortCode: string) returns (r: Option<UrlRow>)
      requires Valid()
      modifies this`rows
      ensures Valid()
      ensures r.None? <==> !Contains(old(rows), shortCode)
      ensures r.None? ==> rows == old(rows)
      ensures r.Some? ==> r.value in old(rows) && r.value.shortCode == shortCode
      ensures match old(Find(rows, shortCode))
                case None => r == None && rows == old(rows)
                case Some(k) => r == Some(old(rows)[k]) && rows == Clicked(old(rows), k)
      ensures Evolves(old(rows), rows)
    {
      var found := Find(rows, shortCode);
      match found {
        case None =>
          r := None;
        case Some(k) =>
          r := Some(rows[k]);
          rows := Clicked(rows, k);
      }
    }

    /** `url_exists`: a read-only membership test. */
    method UrlExists(shortCode: string) returns (b: bool)
      requires Valid()
      ensures b <==> Contains(rows, shortCode)
    {
      b := Find(rows, shortCode).Some?;
    }

    /**
     * `get_all_urls`: newest rows first, at most `limit` of them; a negative
     * LIMIT places no bound, as in SQLite. Among rows with the same
     * timestamp the order is left open; none is skipped in favour of an older
     * one.
     */
    method GetAllUrls(limit: int) returns (result: seq<UrlRow>)
      requires Valid()
      ensures |result| == if limit < 0 || limit > |rows| then |rows| else limit
      ensures forall s, t :: 0 <= s < t < |result| ==> result[s].createdAt >= result[t].createdAt
      ensures forall t :: 0 <= t < |result| ==> result[t] in rows
      ensures forall s, t :: 0 <= s < t < |result| ==> result[s].shortCode != result[t].shortCode
      ensures forall i, t :: 0 <= i < |rows| && 0 <= t < |result| && rows[i] !in result ==>
                rows[i].createdAt <= result[t].createdAt
    {
      var n := if limit < 0 || limit > |rows| then |rows| else limit;
      result := [];
      var k := 0;
      while k < n
        invariant 0 <= k <= n
        invariant |result| == k
        invariant forall t :: 0 <= t < k ==> result[t] == rows[|rows| - 1 - t]
      {
        result := result + [rows[|rows| - 1 - k]];
        k := k + 1;
      }
      forall i | |rows| - n <= i < |rows| ensures rows[i] in result {
        assert result[|rows| - 1 - i] == rows[i];
      }
    }
  }

  /** A second insert under a taken code is refused and keeps the first URL. */
  method DuplicateScenario(code: string, url: string, url2: string) {
    var db := new Database();
    var ok := db.CreateUrl(code, url);
    assert ok && db.rows[0].shortCode == code;
    ok := db.CreateUrl(code, url2);
    assert !ok && db.rows == [UrlRow(1, code, url, 0, 0)];
  }

  /** The first lookup of a new code returns its row with no clicks yet, and records one. */
  method FirstLookupScenario(code: string, url: string) {
    var db := new Database();
    var ok := db.CreateUrl(code, url);
    ghost var before := db.rows;
    assert |before| == 1 && before[0] == UrlRow(1, code, url, 0, 0);
    FindUnique(before, code, 0);
    var found := db.GetUrl(code);
    assert found == Some(UrlRow(1, code, url, 0, 0));
    assert db.rows == Clicked(before, 0);
    assert db.rows[0].clicks == 1;
  }

  /** A code that was never created is not found, and the lookup changes nothing. */
  method MissingLookupScenario(code: string, url: string, other: string)
    requires other != code
  {
    var db := new Database();
    var ok := db.CreateUrl(code, url);
    ghost var before := db.rows;
    var missing := db.GetUrl(other);
    assert missing == None && db.rows == before;
  }
}
