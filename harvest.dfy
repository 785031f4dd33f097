/** The harvest loop: page after page, fetch a batch, save it, grow the
    in-memory processed set, and stop at the target or after five
    consecutive empty pages. */
module Orchestrator {
  import opened Records
  import opened BatchFetch
  import opened IngestStore

  const TARGET_RECORDS := 100000
  const MAX_EMPTY_PAGES := 5

  /** The variables of the loop together with the store. `memo` is the
      in-memory processed set, `count` the loop's idea of the row count. */
  datatype Loop = Loop(store: StoreState, memo: set<Oid>, page: int, emptyPages: nat, count: int)

  /** The state before the first iteration, after init_db and get_processed_oids. */
  function Start(st: StoreState): Loop {
    Loop(st, st.marks, 1, 0, |st.table|)
  }

  /** One iteration of the loop body, and whether it breaks out. */
  function Step(s: Loop, cat: Catalog, faults: int -> Fault): (r: (Loop, bool))
    ensures !r.1 ==> r.0.emptyPages < MAX_EMPTY_PAGES
  {
    var b := FetchSpec(cat, s.page, s.memo);
    if b.rows != [] then
      var (st, total) := SaveSpec(s.store, b.rows, b.oids, faults(s.page));
      (Loop(st, s.memo + Elems(b.oids), s.page + 1, 0, total), false)
    else if s.emptyPages + 1 >= MAX_EMPTY_PAGES then
      (s.(emptyPages := s.emptyPages + 1), true)
    else
      (s.(emptyPages := s.emptyPages + 1, page := s.page + 1), false)
  }

  /** Pages left in the catalog: it falls on every iteration until the
      catalog is exhausted; after that every page is empty. */
  function PagesLeft(cat: Catalog, page: int): nat {
    if page <= |cat.pages| then |cat.pages| + 1 - page else 0
  }

  /** The loop from `s` to its exit: the final state and the number of iterations. */
  function Run(s: Loop, cat: Catalog, faults: int -> Fault): (r: (Loop, nat))
    requires s.emptyPages < MAX_EMPTY_PAGES
    ensures r.1 == 0 <==> s.count >= TARGET_RECORDS
    ensures r.0.page <= s.page + r.1
    ensures r.0.emptyPages <= MAX_EMPTY_PAGES
    decreases PagesLeft(cat, s.page), MAX_EMPTY_PAGES - s.emptyPages
  {
    if s.count >= TARGET_RECORDS then (s, 0)
    else
      var (next, stop) := Step(s, cat, faults);
      if stop then (next, 1)
      else
        var (final, n) := Run(next, cat, faults);
        (final, n + 1)
  }

  /** What stays true of the loop state from one iteration to the next. */
  ghost predicate Inv(s: Loop) {
    && WellKeyed(s.store.table)
    && s.store.marks <= s.memo
    && (s.count == |s.store.table| || s.count == 0)
  }

  // Lemmas about one iteration.

  /** The step rules: a non-empty batch resets the empty-page counter and an
      empty one increments it; the page advances by exactly one unless the
      loop breaks, which it does exactly when the counter reaches the limit;
      the processed set grows by union with the batch's oids. */
  lemma StepRules(s: Loop, cat: Catalog, faults: int -> Fault)
    ensures var b := FetchSpec(cat, s.page, s.memo);
      var (r, stop) := Step(s, cat, faults);
      && (b.oids != [] ==> !stop && r.emptyPages == 0)
      && (b.oids == [] ==> r.emptyPages == s.emptyPages + 1 && r.store == s.store && r.count == s.count)
      && (stop <==> b.oids == [] && s.emptyPages + 1 >= MAX_EMPTY_PAGES)
      && r.page == (if stop then s.page else s.page + 1)
      && r.memo == s.memo + Elems(b.oids)
  {
    FetchCharacterized(cat, s.page, s.memo);
    FetchFacts(cat, s.page, s.memo);
  }

  lemma StepKeepsInv(s: Loop, cat: Catalog, faults: int -> Fault)
    requires Inv(s)
    ensures Inv(Step(s, cat, faults).0)
  {
    var b := FetchSpec(cat, s.page, s.memo);
    if b.rows != [] {
      SaveGrows(s.store, b.rows, b.oids, faults(s.page));
      SaveTotal(s.store, b.rows, b.oids, faults(s.page));
    }
  }

  /** A save that raises overwrites the loop's count with 0. */
  lemma FailedSaveZeroesCount(s: Loop, cat: Catalog, faults: int -> Fault)
    requires FetchSpec(cat, s.page, s.memo).rows != []
    requires faults(s.page) != NoFault
    ensures Step(s, cat, faults).0.count == 0
  {
    FetchCharacterized(cat, s.page, s.memo);
    FetchFacts(cat, s.page, s.memo);
  }

  /** With the processed set up to date, a page never re-fetches an oid the
      store already marks as processed. */
  lemma NoRefetch(s: Loop, cat: Catalog)
    requires Inv(s)
    ensures var b := FetchSpec(cat, s.page, s.memo);
      forall i :: 0 <= i < |b.oids| ==> b.oids[i] !in s.store.marks && b.oids[i] !in s.memo
  {
    FetchExcludesProcessed(cat, s.page, s.memo);
  }

  /** A candidate whose detection query fails or returns no rows is not
      marked processed, in memory or in the store, so a later page may retry it. */
  lemma UnproductiveNotMarked(s: Loop, cat: Catalog, faults: int -> Fault, c: Candidate)
    requires Inv(s)
    requires c.oid !in s.memo
    requires !Productive(cat, s.page, c)
    ensures var r := Step(s, cat, faults).0;
      c.oid !in r.memo && c.oid !in r.store.marks
  {
    var b := FetchSpec(cat, s.page, s.memo);
    assert c.oid !in b.oids by {
      FetchCharacterized(cat, s.page, s.memo);
      if PageQuery(cat, s.page).Some? {
        SurvivorsProductive(cat, s.page, Unprocessed(PageQuery(cat, s.page).value, s.memo), c);
      }
    }
    assert c.oid !in Elems(b.oids);
    StepRules(s, cat, faults);
    var r := Step(s, cat, faults).0;
    if b.rows != [] {
      assert r.store == SaveSpec(s.store, b.rows, b.oids, faults(s.page)).0;
      assert r.store.marks <= s.store.marks + Elems(b.oids);
    }
  }

  // Lemmas about the whole loop.

  /** The loop ends either at the target with fewer than five empty pages, or
      below the target after exactly five consecutive empty pages. */
  lemma {:induction false} RunExit(s: Loop, cat: Catalog, faults: int -> Fault)
    requires s.emptyPages < MAX_EMPTY_PAGES
    ensures var (r, _) := Run(s, cat, faults);
      || (r.count >= TARGET_RECORDS && r.emptyPages < MAX_EMPTY_PAGES)
      || (r.count < TARGET_RECORDS && r.emptyPages == MAX_EMPTY_PAGES)
    decreases PagesLeft(cat, s.page), MAX_EMPTY_PAGES - s.emptyPages
  {
    if s.count < TARGET_RECORDS {
      var (next, stop) := Step(s, cat, faults);
      if !stop {
        RunExit(next, cat, faults);
      }
    }
  }

  /** Across the loop nothing stored is lost or overwritten, the row count, the
      marks and the in-memory set only grow, the page never goes back, and the
      invariant is kept. */
  lemma {:induction false} RunGrows(s: Loop, cat: Catalog, faults: int -> Fault)
    requires s.emptyPages < MAX_EMPTY_PAGES
    requires Inv(s)
    ensures var (r, _) := Run(s, cat, faults);
      && (forall k :: k in s.store.table ==> k in r.store.table && r.store.table[k] == s.store.table[k])
      && |s.store.table| <= |r.store.table|
      && s.store.marks <= r.store.marks
      && s.memo <= r.memo
      && s.page <= r.page
      && Inv(r)
    decreases PagesLeft(cat, s.page), MAX_EMPTY_PAGES - s.emptyPages
  {
    if s.count < TARGET_RECORDS {
      var (next, stop) := Step(s, cat, faults);
      var b := FetchSpec(cat, s.page, s.memo);
      if b.rows != [] {
        SaveGrows(s.store, b.rows, b.oids, faults(s.page));
      }
      StepKeepsInv(s, cat, faults);
      if !stop {
        RunGrows(next, cat, faults);
      }
    }
  }

  /** From a reset empty-page counter below the target, five pages that yield
      nothing end the loop after exactly five iterations, four pages further
      on, with nothing else changed. */
  lemma FiveEmptyPagesStop(s: Loop, cat: Catalog, faults: int -> Fault)
    requires s.emptyPages == 0 && s.count < TARGET_RECORDS
    requires forall p :: s.page <= p < s.page + 5 ==> FetchSpec(cat, p, s.memo).rows == []
    ensures Run(s, cat, faults) == (s.(page := s.page + 4, emptyPages := MAX_EMPTY_PAGES), 5)
  {
    var p := s.page;
    var s1 := s.(page := p + 1, emptyPages := 1);
    var s2 := s.(page := p + 2, emptyPages := 2);
    var s3 := s.(page := p + 3, emptyPages := 3);
    var s4 := s.(page := p + 4, emptyPages := 4);
    var s5 := s.(page := p + 4, emptyPages := 5);
    assert FetchSpec(cat, p, s.memo).rows == [];
    assert Step(s, cat, faults) == (s1, false);
    assert FetchSpec(cat, p + 1, s.memo).rows == [];
    assert Step(s1, cat, faults) == (s2, false);
    assert FetchSpec(cat, p + 2, s.memo).rows == [];
    assert Step(s2, cat, faults) == (s3, false);
    assert FetchSpec(cat, p + 3, s.memo).rows == [];
    assert Step(s3, cat, faults) == (s4, false);
    assert FetchSpec(cat, p + 4, s.memo).rows == [];
    assert Step(s4, cat, faults) == (s5, true);
    assert Run(s4, cat, faults) == (s5, 1);
    assert Run(s3, cat, faults) == (s5, 2);
    assert Run(s2, cat, faults) == (s5, 3);
    assert Run(s1, cat, faults) == (s5, 4);
  }

  /** Against a catalog that yields nothing on pages 1 to 5, a fresh run below
      the target takes exactly five iterations and stops on page 5 with five
      empty pages, leaving the store untouched. */
  lemma ExhaustedAfterFiveEmptyPages(st: StoreState, cat: Catalog, faults: int -> Fault)
    requires |st.table| < TARGET_RECORDS
    requires forall p :: 1 <= p <= 5 ==> FetchSpec(cat, p, st.marks).rows == []
    ensures Run(Start(st), cat, faults) ==
      (Loop(st, st.marks, 5, MAX_EMPTY_PAGES, |st.table|), 5)
  {
    FiveEmptyPagesStop(Start(st), cat, faults);
  }

  /** An empty catalog: every page query returns an empty page. */
  lemma EmptyCatalogExhausts(st: StoreState, detections: (int, Oid) -> Option<seq<Detection>>, faults: int -> Fault)
    requires |st.table| < TARGET_RECORDS
    ensures var (r, n) := Run(Start(st), Catalog([], detections), faults);
      n == 5 && r.page == 5 && r.emptyPages == MAX_EMPTY_PAGES && r.store == st
  {
    var cat := Catalog([], detections);
    forall p | 1 <= p <= 5 ensures FetchSpec(cat, p, st.marks).rows == [] {
      FetchEmptyCases(cat, p, st.marks);
    }
    ExhaustedAfterFiveEmptyPages(st, cat, faults);
  }

  // A worked run: page 1 holds two new candidates with three detections
  // each, and the catalog ends there.

  function Raw(mjd: int): Detection {
    Detection("", mjd, 18.5, 1, 0.1, None)
  }

  function TwoCandidateCatalog(): Catalog {
    Catalog(
      [Some([Candidate("a", None), Candidate("b", None)])],
      (p: int, o: Oid) => if o == "a" || o == "b" then Some([Raw(1), Raw(2), Raw(3)]) else None)
  }

  function ScenarioRows(): seq<Detection> {
    var raws := [Raw(1), Raw(2), Raw(3)];
    TagAll(Candidate("a", None), raws) + TagAll(Candidate("b", None), raws)
  }

  lemma ScenarioFirstPage(cat: Catalog)
    requires cat == TwoCandidateCatalog()
    ensures FetchSpec(cat, 1, {}) == Batch(ScenarioRows(), ["a", "b"])
  {
    var ca, cb := Candidate("a", None), Candidate("b", None);
    var raws := [Raw(1), Raw(2), Raw(3)];
    assert PageQuery(cat, 1) == Some([ca, cb]);
    assert Answer(cat, 1, ca) == raws;
    assert Answer(cat, 1, cb) == raws;
    var ka, kb := Contribution(cat, 1, ca), Contribution(cat, 1, cb);
    assert Unprocessed([ca, cb], {}) == [ca, cb] by {
      assert [ca, cb][1..] == [cb];
    }
    GatherCons(cat, 1, ca, [cb]);
    GatherCons(cat, 1, cb, []);
    assert [cb] + [] == [cb];
    assert [ca] + [cb] == [ca, cb];
    assert Gather(cat, 1, []) == NoBatch;
    assert Join(kb, NoBatch) == kb by {
      assert kb.rows + [] == kb.rows;
      assert kb.oids + [] == kb.oids;
    }
  }

  lemma ScenarioStoresSix(rows: seq<Detection>)
    requires rows == ScenarioRows()
    ensures |rows| == 6 && |InsertRows(map[], rows)| == 6
  {
    var raws := [Raw(1), Raw(2), Raw(3)];
    var ta, tb := TagAll(Candidate("a", None), raws), TagAll(Candidate("b", None), raws);
    TagAllStamps(Candidate("a", None), raws);
    TagAllStamps(Candidate("b", None), raws);
    assert rows == ta + tb;
    var keys := [Key("a", 1, 1), Key("a", 2, 1), Key("a", 3, 1), Key("b", 1, 1), Key("b", 2, 1), Key("b", 3, 1)];
    forall i | 0 <= i < 6 ensures KeyOf(rows[i]) == keys[i] {
      if i < 3 {
        assert rows[i] == ta[i];
      } else {
        assert rows[i] == tb[i - 3];
      }
    }
    InsertFreshKeys(map[], rows);
  }

  /** From an empty store, a catalog whose only page yields rows (saved
      without fault, below the target) is harvested in one productive
      iteration and five empty ones, ending on page 6. */
  lemma OnePageThenExhausted(cat: Catalog, faults: int -> Fault)
    requires |cat.pages| == 1 && faults(1) == NoFault
    requires var b := FetchSpec(cat, 1, {});
      b.rows != [] && |InsertRows(map[], b.rows)| < TARGET_RECORDS
    ensures var b := FetchSpec(cat, 1, {});
      var t := InsertRows(map[], b.rows);
      Run(Start(StoreState(map[], {})), cat, faults)
        == (Loop(StoreState(t, Elems(b.oids)), Elems(b.oids), 6, MAX_EMPTY_PAGES, |t|), 6)
  {
    var s0 := Start(StoreState(map[], {}));
    var b := FetchSpec(cat, 1, {});
    FetchFacts(cat, 1, {});
    var t := InsertRows(map[], b.rows);
    var st := StoreState(t, Elems(b.oids));
    assert SaveSpec(s0.store, b.rows, b.oids, faults(1)) == (st, |t|);
    var s1 := ProductiveStep(s0, cat, faults, b, st, |t|);
    assert {} + Elems(b.oids) == Elems(b.oids);
    forall p | 2 <= p < 7 ensures FetchSpec(cat, p, s1.memo).rows == [] {
      FetchEmptyCases(cat, p, s1.memo);
    }
    FiveEmptyPagesStop(s1, cat, faults);
  }

  /** Starting from an empty store, the run stores six rows, marks both
      candidates, and ends exhausted (below the target) on page 6 after six
      iterations: one productive page and five empty ones. */
  lemma TwoCandidatesThenExhausted(cat: Catalog, faults: int -> Fault)
    requires cat == TwoCandidateCatalog()
    requires faults(1) == NoFault
    ensures var (r, n) := Run(Start(StoreState(map[], {})), cat, faults);
      && |r.store.table| == 6 && r.count == 6
      && r.store.marks == {"a", "b"} && r.memo == {"a", "b"}
      && r.emptyPages == MAX_EMPTY_PAGES && r.page == 6 && n == 6
  {
    ScenarioFirstPage(cat);
    ScenarioStoresSix(ScenarioRows());
    ScenarioRun(cat, faults, ScenarioRows());
  }

  lemma ScenarioRun(cat: Catalog, faults: int -> Fault, rows: seq<Detection>)
    requires |cat.pages| == 1 && faults(1) == NoFault
    requires FetchSpec(cat, 1, {}) == Batch(rows, ["a", "b"])
    requires rows != [] && |InsertRows(map[], rows)| == 6
    ensures var (r, n) := Run(Start(StoreState(map[], {})), cat, faults);
      && |r.store.table| == 6 && r.count == 6
      && r.store.marks == {"a", "b"} && r.memo == {"a", "b"}
      && r.emptyPages == MAX_EMPTY_PAGES && r.page == 6 && n == 6
  {
    OnePageThenExhausted(cat, faults);
    var b := FetchSpec(cat, 1, {});
    assert b.rows == rows && b.oids == ["a", "b"];
    ScenarioOids();
    var t := InsertRows(map[], rows);
    assert Run(Start(StoreState(map[], {})), cat, faults)
      == (Loop(StoreState(t, {"a", "b"}), {"a", "b"}, 6, MAX_EMPTY_PAGES, |t|), 6);
  }

  lemma ScenarioOids()
    ensures Elems(["a", "b"]) == {"a", "b"}
  {
  }

  /** The loop variables after a page that yields rows. */
  lemma ProductiveStep(s: Loop, cat: Catalog, faults: int -> Fault, b: Batch, st: StoreState, total: int)
      returns (r: Loop)
    requires FetchSpec(cat, s.page, s.memo) == b && b.rows != []
    requires SaveSpec(s.store, b.rows, b.oids, faults(s.page)) == (st, total)
    ensures Step(s, cat, faults) == (r, false)
    ensures r == Loop(st, s.memo + Elems(b.oids), s.page + 1, 0, total)
  {
    r := Loop(st, s.memo + Elems(b.oids), s.page + 1, 0, total);
    var b' := FetchSpec(cat, s.page, s.memo);
    assert b' == b && b'.rows != [];
    var p := SaveSpec(s.store, b'.rows, b'.oids, faults(s.page));
    assert p == (st, total);
  }

  /** start_harvest, as an object over the store and the loop variables. */
  class Harvester {
    const store: Store
    var memo: set<Oid>
    var page: int
    var emptyPages: nat
    var currentCount: int

    function State(): Loop
      reads this, store
    {
      Loop(store.State(), memo, page, emptyPages, currentCount)
    }

    /** The part of start_harvest before the loop. */
    constructor (store: Store)
      requires store.Valid()
      ensures this.store == store && store.Valid()
      ensures State() == Start(store.State())
    {
      var count, processed := store.Init();
      var oids := store.ProcessedOids();
      this.store := store;
      memo := oids;
      page := 1;
      emptyPages := 0;
      currentCount := count;
    }

    /** The loop of start_harvest. */
    method Harvest(cat: Catalog, faults: int -> Fault)
      requires store.Valid() && emptyPages < MAX_EMPTY_PAGES
      modifies this, store
      ensures store.Valid()
      ensures State() == Run(old(State()), cat, faults).0
      ensures currentCount >= TARGET_RECORDS || emptyPages == MAX_EMPTY_PAGES
      ensures emptyPages <= MAX_EMPTY_PAGES
    {
      ghost var s0 := State();
      while currentCount < TARGET_RECORDS
        invariant store.Valid()
        invariant emptyPages < MAX_EMPTY_PAGES
        invariant Run(State(), cat, faults).0 == Run(s0, cat, faults).0
        decreases PagesLeft(cat, page), MAX_EMPTY_PAGES - emptyPages
      {
        ghost var s := State();
        var batch := FetchBatch(cat, page, memo);
        if batch.rows != [] {
          currentCount := store.SaveBatch(batch.rows, batch.oids, faults(page));
          memo := memo + Elems(batch.oids);
          emptyPages := 0;
        } else {
          emptyPages := emptyPages + 1;
          if emptyPages >= MAX_EMPTY_PAGES {
            assert State() == Step(s, cat, faults).0;
            break;
          }
        }
        page := page + 1;
        assert State() == Step(s, cat, faults).0;
      }
    }
  }
}
