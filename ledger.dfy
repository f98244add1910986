/** The ledger store of `database.py`: an append-only table of amounts and a
    table of image fingerprints whose hash column is UNIQUE. Each SQL query
    becomes a method that reads the in-memory tables and is proved against a
    specification function over them. */
module Ledger {
  import opened Common

  /** One row of the `amounts` table. Besides the three columns `add_amount`
      stores, a row keeps the kWh value and the two timestamps that the
      request handlers pass along with every insert. */
  datatype Row = Row(phone: Phone, month: YearMonth, amount: real, kwh: real,
                     ocrTime: string, exifTime: string)

  /** One row of the `image_hashes` table. */
  datatype HashRecord = HashRecord(hash: string, phone: Phone, exif: string)

  // ---------------------------------------------------------------------
  // Specification functions over the tables

  /** `SELECT SUM(amount) ... WHERE phone_number = p AND month = m`, with
      `0.0` in place of SQL's NULL for an empty selection. */
  function MonthlyTotal(rows: seq<Row>, p: Phone, m: YearMonth): real
  {
    if rows == [] then 0.0
    else
      var last := rows[|rows| - 1];
      MonthlyTotal(rows[..|rows| - 1], p, m) + (if last.phone == p && last.month == m then last.amount else 0.0)
  }

  /** The phones that have at least one row in month `m`: the groups of
      `GROUP BY phone_number`. */
  function PhonesIn(rows: seq<Row>, m: YearMonth): set<Phone>
  {
    set r | r in rows && r.month == m :: r.phone
  }

  /** The rows of phone `p`, in insertion order. */
  function RowsOf(rows: seq<Row>, p: Phone): (f: seq<Row>)
    ensures |f| <= |rows|
  {
    if rows == [] then []
    else
      var last := rows[|rows| - 1];
      RowsOf(rows[..|rows| - 1], p) + (if last.phone == p then [last] else [])
  }

  function Reverse<T>(s: seq<T>): (r: seq<T>)
    ensures |r| == |s|
  {
    if s == [] then [] else [s[|s| - 1]] + Reverse(s[..|s| - 1])
  }

  /** Some row already records amount `amount` for `kwh` kWh under phone `p`. */
  predicate HasTransaction(rows: seq<Row>, p: Phone, amount: real, kwh: real)
  {
    exists i :: 0 <= i < |rows| && rows[i].phone == p && rows[i].amount == amount && rows[i].kwh == kwh
  }

  function HashesOf(records: seq<HashRecord>): set<string>
  {
    set r | r in records :: r.hash
  }

  /** The UNIQUE constraint on `image_hashes.image_hash`. */
  predicate HashesDistinct(records: seq<HashRecord>)
  {
    forall i, j :: 0 <= i < j < |records| ==> records[i].hash != records[j].hash
  }

  // ---------------------------------------------------------------------
  // The store

  class LedgerStore {
    var amounts: seq<Row>
    var imageHashes: seq<HashRecord>

    ghost predicate Valid()
      reads this
    {
      HashesDistinct(imageHashes)
    }

    /** A fresh, empty database, as `init_db` leaves it. */
    constructor ()
      ensures Valid() && amounts == [] && imageHashes == []
    {
      amounts := [];
      imageHashes := [];
    }

    /** `add_amount`: one INSERT into `amounts`; nothing else changes. */
    method AddAmount(phone: Phone, month: YearMonth, amount: real, kwh: real, ocrTime: string, exifTime: string)
      requires Valid()
      modifies this
      ensures Valid()
      ensures amounts == old(amounts) + [Row(phone, month, amount, kwh, ocrTime, exifTime)]
      ensures imageHashes == old(imageHashes)
    {
      amounts := amounts + [Row(phone, month, amount, kwh, ocrTime, exifTime)];
    }

    /** `get_monthly_total`. */
    method GetMonthlyTotal(p: Phone, m: YearMonth) returns (total: real)
      ensures total == MonthlyTotal(amounts, p, m)
    {
      total := 0.0;
      var i := 0;
      while i < |amounts|
        invariant 0 <= i <= |amounts|
        invariant total == MonthlyTotal(amounts[..i], p, m)
      {
        assert amounts[..i + 1][..i] == amounts[..i];
        var r := amounts[i];
        if r.phone == p && r.month == m {
          total := total + r.amount;
        }
        i := i + 1;
      }
      assert amounts[..i] == amounts;
    }

    /** `get_all_totals`: one entry per phone with a row in month `m`, mapped
        to that phone's total for `m`. */
    method GetAllTotals(m: YearMonth) returns (totals: map<Phone, real>)
      ensures totals.Keys == PhonesIn(amounts, m)
      ensures forall p :: p in totals ==> totals[p] == MonthlyTotal(amounts, p, m)
    {
      totals := map[];
      var i := 0;
      while i < |amounts|
        invariant 0 <= i <= |amounts|
        invariant totals.Keys == PhonesIn(amounts[..i], m)
        invariant forall p :: p in totals ==> totals[p] == MonthlyTotal(amounts[..i], p, m)
      {
        var r := amounts[i];
        var prefix := amounts[..i];
        assert amounts[..i + 1] == prefix + [r];
        MonthlyTotalAppend(prefix, r, m);
        PhonesInAppend(prefix, r, m);
        if r.month == m {
          if r.phone !in totals {
            MonthlyTotalAbsent(prefix, r.phone, m);
          }
          var before := if r.phone in totals then totals[r.phone] else 0.0;
          totals := totals[r.phone := before + r.amount];
        }
        i := i + 1;
      }
      assert amounts[..i] == amounts;
    }

    /** `get_user_history`: the rows of phone `p`, newest first. */
    method GetUserHistory(p: Phone) returns (history: seq<Row>)
      ensures history == Reverse(RowsOf(amounts, p))
    {
      history := [];
      var i := 0;
      while i < |amounts|
        invariant 0 <= i <= |amounts|
        invariant history == Reverse(RowsOf(amounts[..i], p))
      {
        var r := amounts[i];
        assert amounts[..i + 1] == amounts[..i] + [r];
        RowsOfAppend(amounts[..i], r, p);
        if r.phone == p {
          ReverseAppend(RowsOf(amounts[..i], p), r);
          history := [r] + history;
        } else {
          assert RowsOf(amounts[..i], p) + [] == RowsOf(amounts[..i], p);
        }
        i := i + 1;
      }
      assert amounts[..i] == amounts;
    }

    /** `check_duplicate_transaction`, which the handlers import but the
        store file does not define; read here as "some row of this phone has
        the same amount and the same kWh". */
    method CheckDuplicateTransaction(p: Phone, amount: real, kwh: real) returns (duplicate: bool)
      ensures duplicate <==> HasTransaction(amounts, p, amount, kwh)
    {
      duplicate := false;
      var i := 0;
      while i < |amounts|
        invariant 0 <= i <= |amounts|
        invariant duplicate <==> HasTransaction(amounts[..i], p, amount, kwh)
      {
        var r := amounts[i];
        assert amounts[..i + 1][i] == r;
        assert forall k :: 0 <= k < i ==> amounts[..i + 1][k] == amounts[..i][k];
        if r.phone == p && r.amount == amount && r.kwh == kwh {
          duplicate := true;
        }
        i := i + 1;
      }
      assert amounts[..i] == amounts;
    }

    /** `check_image_hash`: whether any record, of any phone, has hash `h`. */
    method CheckImageHash(h: string) returns (found: bool)
      ensures found <==> h in HashesOf(imageHashes)
    {
      found := false;
      var i := 0;
      while i < |imageHashes|
        invariant 0 <= i <= |imageHashes|
        invariant found <==> exists k :: 0 <= k < i && imageHashes[k].hash == h
      {
        if imageHashes[i].hash == h {
          found := true;
        }
        i := i + 1;
      }
      if found {
        var k :| 0 <= k < i && imageHashes[k].hash == h;
        assert imageHashes[k] in imageHashes;
      }
    }

    /** `add_image_hash`: a new hash is inserted; an already stored one trips
        the UNIQUE constraint, whose IntegrityError is swallowed, and the
        table stays as it was. */
    method AddImageHash(h: string, p: Phone, exif: string)
      requires Valid()
      modifies this
      ensures Valid()
      ensures h in HashesOf(old(imageHashes)) ==> imageHashes == old(imageHashes)
      ensures h !in HashesOf(old(imageHashes)) ==> imageHashes == old(imageHashes) + [HashRecord(h, p, exif)]
      ensures h in HashesOf(imageHashes)
      ensures amounts == old(amounts)
    {
      var known := CheckImageHash(h);
      if !known {
        forall i | 0 <= i < |imageHashes|
          ensures imageHashes[i].hash != h
        {
          assert imageHashes[i] in imageHashes;
        }
        imageHashes := imageHashes + [HashRecord(h, p, exif)];
      }
    }

    /** `get_image_hash_history`: every record, newest first. */
    method GetImageHashHistory() returns (records: seq<HashRecord>)
      ensures records == Reverse(imageHashes)
    {
      records := [];
      var i := 0;
      while i < |imageHashes|
        invariant 0 <= i <= |imageHashes|
        invariant records == Reverse(imageHashes[..i])
      {
        assert imageHashes[..i + 1] == imageHashes[..i] + [imageHashes[i]];
        ReverseAppend(imageHashes[..i], imageHashes[i]);
        records := [imageHashes[i]] + records;
        i := i + 1;
      }
      assert imageHashes[..i] == imageHashes;
    }
  }

  // ---------------------------------------------------------------------
  // Lemmas about the specification functions

  lemma ReverseAppend<T>(s: seq<T>, x: T)
    ensures Reverse(s + [x]) == [x] + Reverse(s)
  {
    assert (s + [x])[..|s|] == s;
  }

  /** Newest first: position `k` of the reversed table holds the row inserted
      `k` places before the last one. */
  lemma {:induction false} ReverseAt<T>(s: seq<T>, k: nat)
    requires k < |s|
    ensures Reverse(s)[k] == s[|s| - 1 - k]
  {
    if k > 0 {
      ReverseAt(s[..|s| - 1], k - 1);
    }
  }

  /** One more row changes each total by that row's amount if it matches the
      phone and month, and by nothing otherwise. */
  lemma MonthlyTotalAppend(rows: seq<Row>, r: Row, m: YearMonth)
    ensures forall p :: MonthlyTotal(rows + [r], p, m)
                        == MonthlyTotal(rows, p, m) + (if r.phone == p && r.month == m then r.amount else 0.0)
  {
    assert (rows + [r])[..|rows|] == rows;
  }

  lemma PhonesInAppend(rows: seq<Row>, r: Row, m: YearMonth)
    ensures PhonesIn(rows + [r], m) == PhonesIn(rows, m) + (if r.month == m then {r.phone} else {})
  {
    var lhs := PhonesIn(rows + [r], m);
    var rhs := PhonesIn(rows, m) + (if r.month == m then {r.phone} else {});
    forall q | q in lhs ensures q in rhs {
      var w :| w in rows + [r] && w.month == m && w.phone == q;
      if w != r {
        assert w in rows;
      }
    }
    forall q | q in rhs ensures q in lhs {
      if q in PhonesIn(rows, m) {
        var w :| w in rows && w.month == m && w.phone == q;
        assert w in rows + [r];
      } else {
        assert r in rows + [r];
      }
    }
  }

  lemma RowsOfAppend(rows: seq<Row>, r: Row, p: Phone)
    ensures RowsOf(rows + [r], p) == RowsOf(rows, p) + (if r.phone == p then [r] else [])
  {
    assert (rows + [r])[..|rows|] == rows;
  }

  /** A phone without rows in month `m` has total `0.0` for `m`. */
  lemma {:induction false} MonthlyTotalAbsent(rows: seq<Row>, p: Phone, m: YearMonth)
    requires p !in PhonesIn(rows, m)
    ensures MonthlyTotal(rows, p, m) == 0.0
  {
    if rows != [] {
      var init := rows[..|rows| - 1];
      var last := rows[|rows| - 1];
      assert rows == init + [last];
      PhonesInAppend(init, last, m);
      MonthlyTotalAbsent(init, p, m);
    }
  }

  /** Totals are additive over the table: rows inserted later only add their
      own matching amounts to what was there. */
  lemma {:induction false} MonthlyTotalConcat(a: seq<Row>, b: seq<Row>, p: Phone, m: YearMonth)
    ensures MonthlyTotal(a + b, p, m) == MonthlyTotal(a, p, m) + MonthlyTotal(b, p, m)
  {
    if b == [] {
      assert a + b == a;
    } else {
      var init := b[..|b| - 1];
      var last := b[|b| - 1];
      assert a + b == (a + init) + [last];
      assert b == init + [last];
      MonthlyTotalAppend(a + init, last, m);
      MonthlyTotalAppend(init, last, m);
      MonthlyTotalConcat(a, init, p, m);
    }
  }

  /** `get_user_history` returns exactly the rows of phone `p`. */
  lemma {:induction false} RowsOfMembers(rows: seq<Row>, p: Phone, r: Row)
    ensures r in RowsOf(rows, p) <==> r in rows && r.phone == p
  {
    if rows != [] {
      var init := rows[..|rows| - 1];
      assert rows == init + [rows[|rows| - 1]];
      RowsOfMembers(init, p, r);
    }
  }

  lemma {:induction false} ReverseMembers<T>(s: seq<T>, x: T)
    ensures x in Reverse(s) <==> x in s
  {
    if s != [] {
      var init := s[..|s| - 1];
      assert s == init + [s[|s| - 1]];
      ReverseMembers(init, x);
    }
  }

  /** The history of `p` holds every row of `p` and nothing else. */
  lemma HistoryMembers(rows: seq<Row>, p: Phone, r: Row)
    ensures r in Reverse(RowsOf(rows, p)) <==> r in rows && r.phone == p
  {
    ReverseMembers(RowsOf(rows, p), r);
    RowsOfMembers(rows, p, r);
  }
}
