/**
 * The billing dataset that receives the three report tables: the
 * idempotency gate that reads it and the append that writes it.
 */
module BillingStore {
  import opened Schema

  /** Table name to rows, for the tables that exist in the billing dataset. */
  type Tables = map<string, seq<Row>>

  /** `SELECT 1 FROM table WHERE month = key`. */
  function RowsOfMonth(rows: seq<Row>, key: string): seq<Row> {
    if |rows| == 0 then []
    else
      var last := rows[|rows| - 1];
      RowsOfMonth(rows[..|rows| - 1], key) + (if last.month == key then [last] else [])
  }

  /** Some row of `rows` carries month `key`. */
  predicate HasMonth(rows: seq<Row>, key: string) {
    exists i :: 0 <= i < |rows| && rows[i].month == key
  }

  /** The lookup query returns no row exactly when no row carries the key. */
  lemma {:induction false} RowsOfMonthEmpty(rows: seq<Row>, key: string)
    ensures |RowsOfMonth(rows, key)| == 0 <==> !HasMonth(rows, key)
  {
    if |rows| > 0 {
      var init := rows[..|rows| - 1];
      RowsOfMonthEmpty(init, key);
      if HasMonth(init, key) {
        var i :| 0 <= i < |init| && init[i].month == key;
        assert rows[i].month == key;
      }
      if HasMonth(rows, key) && rows[|rows| - 1].month != key {
        var i :| 0 <= i < |rows| && rows[i].month == key;
        assert init[i].month == key;
      }
    }
  }

  /**
   * `can_insert_data`: a table that does not exist (NotFound) admits the
   * insert; an existing one admits it when the lookup query returns no row.
   */
  function CanInsertData(tables: Tables, tableName: string, key: string): bool {
    if tableName !in tables then true
    else |RowsOfMonth(tables[tableName], key)| == 0
  }

  /**
   * The gate refuses exactly when the table exists and already holds a row
   * of the period: absent table, allow; no row of the period, allow.
   */
  lemma CanInsertDataSpec(tables: Tables, tableName: string, key: string)
    ensures CanInsertData(tables, tableName, key) <==> tableName !in tables || !HasMonth(tables[tableName], key)
  {
    if tableName in tables {
      RowsOfMonthEmpty(tables[tableName], key);
    }
  }

  /** `df.to_gbq(..., if_exists="append")`: append, creating the table if absent. */
  function Appended(tables: Tables, tableName: string, rows: seq<Row>): Tables {
    tables[tableName := (if tableName in tables then tables[tableName] else []) + rows]
  }

  /** Table `name` exists in both or in neither, with the same rows. */
  predicate AgreeOn(t1: Tables, t2: Tables, name: string) {
    (name in t1 <==> name in t2) && (name in t1 ==> t1[name] == t2[name])
  }

  /** The billing dataset, changed in place by the report store. */
  class BillingDataset {
    var tables: Tables

    constructor (initial: Tables)
      ensures tables == initial
    {
      tables := initial;
    }

    /**
     * `store_df_in_bq`: appends `rows` to `tableName`, creating it when
     * absent; a failed write raises and changes nothing.
     */
    method StoreReport(tableName: string, rows: seq<Row>, writeFails: bool) returns (ok: bool)
      modifies this
      ensures ok == !writeFails
      ensures !ok ==> tables == old(tables)
      ensures ok ==> tableName in tables
      ensures ok && tableName in old(tables) ==> tables[tableName] == old(tables)[tableName] + rows
      ensures ok && tableName !in old(tables) ==> tables[tableName] == rows
      ensures forall n :: n != tableName ==> AgreeOn(old(tables), tables, n)
      ensures ok ==> tables == Appended(old(tables), tableName, rows)
    {
      if writeFails {
        return false;
      }
      tables := Appended(tables, tableName, rows);
      ok := true;
    }
  }
}
