/** The ingestion store: a detections table keyed by (oid, mjd, fid) and a
    processed-candidates table keyed by oid, both written with INSERT OR IGNORE. */
module IngestStore {
  import opened Records

  type Table = map<Key, Detection>

  /** Every stored row sits under its own key. */
  ghost predicate WellKeyed(t: Table) {
    forall k :: k in t ==> KeyOf(t[k]) == k
  }

  /** The durable state: the detections table and the processed set. */
  datatype StoreState = StoreState(table: Table, marks: set<Oid>)

  /** The statement of save_batch that raises, if any. Each statement is
      atomic on its own; there is no transaction around them. */
  datatype Fault = NoFault | InsertFault | MarkFault | CountFault

  /** One row under INSERT OR IGNORE: a row whose key is present is dropped. */
  function InsertOne(t: Table, d: Detection): Table {
    if KeyOf(d) in t then t else t[KeyOf(d) := d]
  }

  /** INSERT OR IGNORE of a batch, row by row; the first row of a key wins. */
  function InsertRows(t: Table, rows: seq<Detection>): (r: Table)
    ensures forall k :: k in t ==> k in r && r[k] == t[k]
    ensures forall i :: 0 <= i < |rows| ==> KeyOf(rows[i]) in r
    ensures |t| <= |r|
    decreases |rows|
  {
    if rows == [] then t
    else
      var r := InsertRows(InsertOne(t, rows[0]), rows[1..]);
      assert forall i :: 1 <= i < |rows| ==> rows[i] == rows[1..][i - 1];
      r
  }

  /** Every new entry is one of the batch's rows, stored under that row's key. */
  lemma {:induction false} InsertFromRows(t: Table, rows: seq<Detection>)
    ensures var r := InsertRows(t, rows);
      forall k :: k in r && k !in t ==> exists i :: 0 <= i < |rows| && rows[i] == r[k] && KeyOf(rows[i]) == k
    decreases |rows|
  {
    if rows != [] {
      var t' := InsertOne(t, rows[0]);
      var r := InsertRows(t, rows);
      InsertFromRows(t', rows[1..]);
      forall k | k in r && k !in t ensures exists i :: 0 <= i < |rows| && rows[i] == r[k] && KeyOf(rows[i]) == k {
        if k in t' {
          assert r[k] == rows[0];
        } else {
          var j :| 0 <= j < |rows| - 1 && rows[1..][j] == r[k] && KeyOf(rows[1..][j]) == k;
          assert rows[j + 1] == r[k];
        }
      }
    }
  }

  /** INSERT OR IGNORE keeps every row under its own key. */
  lemma InsertKeepsKeyed(t: Table, rows: seq<Detection>)
    requires WellKeyed(t)
    ensures WellKeyed(InsertRows(t, rows))
  {
    InsertFromRows(t, rows);
  }

  /** At most one entry is added per row. */
  lemma {:induction false} InsertBound(t: Table, rows: seq<Detection>)
    ensures |InsertRows(t, rows)| <= |t| + |rows|
    decreases |rows|
  {
    if rows != [] {
      InsertBound(InsertOne(t, rows[0]), rows[1..]);
    }
  }

  /** Marking processed oids is set union. */
  function Mark(marks: set<Oid>, oids: seq<Oid>): (r: set<Oid>)
    ensures marks <= r
    ensures forall i :: 0 <= i < |oids| ==> oids[i] in r
    ensures forall o :: o in r ==> o in marks || o in oids
  {
    marks + Elems(oids)
  }

  /** save_batch: the new state and the total it returns under a given fault. */
  function SaveSpec(st: StoreState, rows: seq<Detection>, oids: seq<Oid>, fault: Fault): (r: (StoreState, int))
    ensures r.1 == 0 || r.1 == |r.0.table|
    ensures r.0.table == st.table || r.0.table == InsertRows(st.table, rows)
    ensures st.marks <= r.0.marks <= st.marks + Elems(oids)
    ensures r.0.marks == st.marks || r.0.table == InsertRows(st.table, rows)
    ensures fault == InsertFault ==> r == (st, 0)
  {
    if rows == [] then (st, 0)
    else if fault == InsertFault then (st, 0)
    else
      var t := InsertRows(st.table, rows);
      if oids != [] && fault == MarkFault then (StoreState(t, st.marks), 0)
      else
        var m := if oids != [] then Mark(st.marks, oids) else st.marks;
        if fault == CountFault then (StoreState(t, m), 0) else (StoreState(t, m), |t|)
  }

  /** Whether a fault interrupts save_batch on this input. */
  predicate Interrupted(rows: seq<Detection>, oids: seq<Oid>, fault: Fault) {
    rows != [] && (fault == InsertFault || fault == CountFault || (fault == MarkFault && oids != []))
  }

  // Lemmas about the detections table.

  /** Rows whose keys are all present already change nothing. */
  lemma {:induction false} InsertAbsorbed(t: Table, rows: seq<Detection>)
    requires forall i :: 0 <= i < |rows| ==> KeyOf(rows[i]) in t
    ensures InsertRows(t, rows) == t
    decreases |rows|
  {
    if rows != [] {
      assert InsertOne(t, rows[0]) == t;
      forall i | 0 <= i < |rows| - 1 ensures KeyOf(rows[1..][i]) in t {
        assert rows[1..][i] == rows[i + 1];
      }
      InsertAbsorbed(t, rows[1..]);
    }
  }

  lemma InsertIdempotent(t: Table, rows: seq<Detection>)
    ensures InsertRows(InsertRows(t, rows), rows) == InsertRows(t, rows)
  {
    InsertAbsorbed(InsertRows(t, rows), rows);
  }

  /** Within one batch the first row carrying a new key is the one stored. */
  lemma {:induction false} InsertFirstWins(t: Table, rows: seq<Detection>, i: nat)
    requires i < |rows|
    requires KeyOf(rows[i]) !in t
    requires forall j :: 0 <= j < i ==> KeyOf(rows[j]) != KeyOf(rows[i])
    ensures InsertRows(t, rows)[KeyOf(rows[i])] == rows[i]
    decreases i
  {
    var t' := InsertOne(t, rows[0]);
    if i == 0 {
      assert t'[KeyOf(rows[0])] == rows[0];
    } else {
      assert rows[1..][i - 1] == rows[i];
      forall j | 0 <= j < i - 1 ensures KeyOf(rows[1..][j]) != KeyOf(rows[1..][i - 1]) {
        assert rows[1..][j] == rows[j + 1];
      }
      InsertFirstWins(t', rows[1..], i - 1);
    }
  }

  /** Rows with pairwise distinct keys, none of them stored yet, each add one row. */
  lemma {:induction false} InsertFreshKeys(t: Table, rows: seq<Detection>)
    requires forall i :: 0 <= i < |rows| ==> KeyOf(rows[i]) !in t
    requires forall i, j :: 0 <= i < j < |rows| ==> KeyOf(rows[i]) != KeyOf(rows[j])
    ensures |InsertRows(t, rows)| == |t| + |rows|
    decreases |rows|
  {
    if rows != [] {
      var t' := InsertOne(t, rows[0]);
      assert |t'| == |t| + 1;
      forall i | 0 <= i < |rows| - 1 ensures KeyOf(rows[1..][i]) !in t' {
        assert rows[1..][i] == rows[i + 1];
      }
      forall i, j | 0 <= i < j < |rows| - 1 ensures KeyOf(rows[1..][i]) != KeyOf(rows[1..][j]) {
        assert rows[1..][i] == rows[i + 1] && rows[1..][j] == rows[j + 1];
      }
      InsertFreshKeys(t', rows[1..]);
    }
  }

  // Lemmas about save_batch.

  lemma SaveEmpty(st: StoreState, oids: seq<Oid>, fault: Fault)
    ensures SaveSpec(st, [], oids, fault) == (st, 0)
  {
  }

  /** Whatever the fault, no stored row is lost or overwritten and no mark is
      lost: the store only grows. */
  lemma SaveGrows(st: StoreState, rows: seq<Detection>, oids: seq<Oid>, fault: Fault)
    ensures var (r, _) := SaveSpec(st, rows, oids, fault);
      && (forall k :: k in st.table ==> k in r.table && r.table[k] == st.table[k])
      && |st.table| <= |r.table|
      && st.marks <= r.marks
      && (WellKeyed(st.table) ==> WellKeyed(r.table))
  {
    if rows != [] && fault != InsertFault {
      var t := InsertRows(st.table, rows);
      if WellKeyed(st.table) {
        InsertKeepsKeyed(st.table, rows);
      }
      var m := if oids != [] then Mark(st.marks, oids) else st.marks;
      assert st.marks <= m;
      assert SaveSpec(st, rows, oids, fault).0 == StoreState(t, if oids != [] && fault == MarkFault then st.marks else m);
    }
  }

  /** The returned total is the new row count, or 0 when a statement raised. */
  lemma SaveTotal(st: StoreState, rows: seq<Detection>, oids: seq<Oid>, fault: Fault)
    ensures var (r, total) := SaveSpec(st, rows, oids, fault);
      && (rows != [] && !Interrupted(rows, oids, fault) ==> total == |r.table|)
      && (rows == [] || Interrupted(rows, oids, fault) ==> total == 0)
  {
  }

  /** A save without a fault stores every row's key and marks every oid. */
  lemma SaveCommits(st: StoreState, rows: seq<Detection>, oids: seq<Oid>)
    requires rows != []
    ensures var (r, total) := SaveSpec(st, rows, oids, NoFault);
      && r.table == InsertRows(st.table, rows)
      && (forall i :: 0 <= i < |rows| ==> KeyOf(rows[i]) in r.table)
      && r.marks == st.marks + Elems(oids)
      && total == |r.table|
  {
  }

  /** Saving the same batch twice, under the same fault, leaves the store and
      the total as saving it once. */
  lemma SaveIdempotent(st: StoreState, rows: seq<Detection>, oids: seq<Oid>, fault: Fault)
    ensures var (once, t1) := SaveSpec(st, rows, oids, fault);
      var (twice, t2) := SaveSpec(once, rows, oids, fault);
      twice == once && t2 == t1
  {
    if rows != [] && fault != InsertFault {
      InsertIdempotent(st.table, rows);
      var once := SaveSpec(st, rows, oids, fault).0;
      if oids != [] && fault != MarkFault {
        assert Mark(once.marks, oids) == once.marks;
      }
    }
  }

  /** The two inserts are not one unit: a fault on the marking statement
      leaves the rows stored and the oid unmarked. */
  lemma MarkFaultSplitsCommit(st: StoreState, rows: seq<Detection>, oids: seq<Oid>)
    requires rows != [] && oids != [] && oids[0] !in st.marks
    ensures var (r, total) := SaveSpec(st, rows, oids, MarkFault);
      KeyOf(rows[0]) in r.table && oids[0] !in r.marks && total == 0
  {
  }

  /** The ingestion store, updated in place. */
  class Store {
    var table: Table
    var marks: set<Oid>

    ghost predicate Valid()
      reads this
    {
      WellKeyed(table)
    }

    function State(): StoreState
      reads this
    {
      StoreState(table, marks)
    }

    /** Opening an existing database file with the given contents. */
    constructor Open(table: Table, marks: set<Oid>)
      requires WellKeyed(table)
      ensures Valid() && State() == StoreState(table, marks)
    {
      this.table := table;
      this.marks := marks;
    }

    /** init_db: the row count of each table. */
    method Init() returns (count: nat, processed: nat)
      ensures count == |table| && processed == |marks|
    {
      count := |table|;
      processed := |marks|;
    }

    /** get_processed_oids: every oid in the processed table. */
    method ProcessedOids() returns (oids: set<Oid>)
      ensures oids == marks
    {
      oids := marks;
    }

    /** save_batch: insert the rows, then mark the oids, then count; a
        statement that raises makes the total 0 and skips what follows it. */
    method SaveBatch(rows: seq<Detection>, oids: seq<Oid>, fault: Fault) returns (total: int)
      requires Valid()
      modifies this
      ensures Valid()
      ensures (State(), total) == SaveSpec(old(State()), rows, oids, fault)
    {
      if rows == [] {
        return 0;
      }
      if fault == InsertFault {
        return 0;
      }
      InsertKeepsKeyed(table, rows);
      table := InsertRows(table, rows);
      if oids != [] {
        if fault == MarkFault {
          return 0;
        }
        marks := Mark(marks, oids);
      }
      if fault == CountFault {
        return 0;
      }
      total := |table|;
    }
  }
}
